/**
 * Small shared vocabulary: optional values, rectangles in view pixels and
 * Java's integer division, which truncates toward zero (Dafny's `/` is
 * Euclidean).
 */
module Common {

  datatype Option<T> = None | Some(value: T)

  /** A rectangle in view coordinates (pixels), as `android.graphics.Rect`. */
  datatype Rect = Rect(left: int, top: int, right: int, bottom: int)

  function Max(a: int, b: int): (r: int)
    ensures r >= a && r >= b && (r == a || r == b)
  {
    if a >= b then a else b
  }

  function Min(a: int, b: int): (r: int)
    ensures r <= a && r <= b && (r == a || r == b)
  {
    if a <= b then a else b
  }

  /** Java's `a / b` on `int`: the quotient truncated toward zero. */
  function JavaDiv(a: int, b: int): (q: int)
    requires b != 0
    ensures a >= 0 && b > 0 ==> q == a / b
    ensures b > 0 ==> q * b <= a + (b - 1) && q * b >= a - (b - 1)
    ensures b > 0 && a >= 0 ==> 0 <= a - q * b < b
    ensures b > 0 && a <= 0 ==> 0 <= q * b - a < b
  {
    if a >= 0 && b > 0 then a / b
    else if a < 0 && b > 0 then -((-a) / b)
    else if a >= 0 then -(a / (-b))
    else (-a) / (-b)
  }
}
