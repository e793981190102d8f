/**
 * The 64-bit column mask of the packing sweep: bit `i` of a Java `long` is
 * set when column `i` is taken. `1L << i` is `Mask(i)`.
 */
module ColumnMask {

  /** `1L << i` for a shift distance held as a `bv8`; Java shifts a `long` by the low six bits. */
  function Shift(i: bv8): bv64
  {
    (1 as bv64) << (i & 63)
  }

  /** A bit position as a `bv8`, counted up from 0. */
  function Position(i: int): bv8
    requires 0 <= i < 64
    decreases i
  {
    if i == 0 then 0 else Position(i - 1) + 1
  }

  lemma {:induction false} PositionValue(i: int)
    requires 0 <= i < 64
    ensures Position(i) < 64 && Position(i) as int == i
  {
    if i > 0 {
      PositionValue(i - 1);
    }
  }

  /** `1L << i`. */
  function Mask(i: int): bv64
    requires 0 <= i < 64
  {
    Shift(Position(i))
  }

  /** Bit `i` of `m` is set. */
  predicate Bit(m: bv64, i: int)
    requires 0 <= i < 64
  {
    m & Mask(i) != 0
  }

  /** `m | (1L << c)`. */
  function SetBit(m: bv64, c: int): bv64
    requires 0 <= c < 64
  {
    m | Mask(c)
  }

  /** `m & ~(1L << c)`. */
  function ClearBit(m: bv64, c: int): bv64
    requires 0 <= c < 64
  {
    m & !Mask(c)
  }

  lemma ShiftsDisjoint(c: bv8, i: bv8)
    requires c < 64 && i < 64 && c != i
    ensures Shift(c) & Shift(i) == 0
  {
  }

  lemma ShiftNonzero(i: bv8)
    ensures Shift(i) != 0
  {
  }

  /** Single-bit masks of different positions share no bit. */
  lemma MasksDisjoint(c: int, i: int)
    requires 0 <= c < 64 && 0 <= i < 64 && c != i
    ensures Mask(c) & Mask(i) == 0
  {
    PositionValue(c);
    PositionValue(i);
    ShiftsDisjoint(Position(c), Position(i));
  }

  lemma SetSame(m: bv64, y: bv64)
    requires y != 0
    ensures (m | y) & y != 0
  {
  }

  lemma SetOther(m: bv64, x: bv64, y: bv64)
    requires x & y == 0
    ensures (m | x) & y == m & y
  {
  }

  lemma ClearSame(m: bv64, y: bv64)
    ensures (m & !y) & y == 0
  {
  }

  lemma ClearOther(m: bv64, x: bv64, y: bv64)
    requires x & y == 0
    ensures (m & !x) & y == m & y
  {
  }

  /** Setting bit `c` sets it. */
  lemma SetBitSame(m: bv64, c: int)
    requires 0 <= c < 64
    ensures Bit(SetBit(m, c), c)
  {
    ShiftNonzero(Position(c));
    SetSame(m, Mask(c));
  }

  /** Setting bit `c` leaves every other bit as it was. */
  lemma SetBitOther(m: bv64, c: int, i: int)
    requires 0 <= c < 64 && 0 <= i < 64 && c != i
    ensures Bit(SetBit(m, c), i) == Bit(m, i)
  {
    MaskSetOther(m, c, i);
  }

  lemma MaskSetOther(m: bv64, c: int, i: int)
    requires 0 <= c < 64 && 0 <= i < 64 && c != i
    ensures (m | Mask(c)) & Mask(i) == m & Mask(i)
  {
    MasksDisjoint(c, i);
    SetOther(m, Mask(c), Mask(i));
  }

  /** Clearing bit `c` clears it. */
  lemma ClearBitSame(m: bv64, c: int)
    requires 0 <= c < 64
    ensures !Bit(ClearBit(m, c), c)
  {
    ClearSame(m, Mask(c));
  }

  /** Clearing bit `c` leaves every other bit as it was. */
  lemma ClearBitOther(m: bv64, c: int, i: int)
    requires 0 <= c < 64 && 0 <= i < 64 && c != i
    ensures Bit(ClearBit(m, c), i) == Bit(m, i)
  {
    MaskClearOther(m, c, i);
    assert ClearBit(m, c) & Mask(i) == m & Mask(i);
  }

  lemma MaskClearOther(m: bv64, c: int, i: int)
    requires 0 <= c < 64 && 0 <= i < 64 && c != i
    ensures (m & !Mask(c)) & Mask(i) == m & Mask(i)
  {
    MasksDisjoint(c, i);
    ClearOther(m, Mask(c), Mask(i));
  }

  lemma ZeroHasNoBit(i: int)
    requires 0 <= i < 64
    ensures !Bit(0, i)
  {
  }

  /** The first clear bit at or after position `i`, or 64. */
  function FirstZeroBitFrom(v: bv64, i: int): (r: int)
    requires 0 <= i <= 64
    ensures i <= r <= 64
    decreases 64 - i
  {
    if i == 64 then 64 else if !Bit(v, i) then i else FirstZeroBitFrom(v, i + 1)
  }

  /** The least position whose bit is clear in `v`, or 64 when all are set. */
  function FirstZeroBit(v: bv64): (r: int)
    ensures 0 <= r <= 64
  {
    FirstZeroBitFrom(v, 0)
  }

  lemma {:induction false} FirstZeroBitFromSpec(v: bv64, i: int)
    requires 0 <= i <= 64
    requires forall j :: 0 <= j < i ==> Bit(v, j)
    ensures var r := FirstZeroBitFrom(v, i);
            i <= r <= 64 && (forall j :: 0 <= j < r ==> Bit(v, j)) && (r < 64 ==> !Bit(v, r))
    decreases 64 - i
  {
    if i < 64 && Bit(v, i) {
      FirstZeroBitFromSpec(v, i + 1);
    }
  }

  /**
   * `FirstZeroBit(v)` is the least clear position: every lower bit is set,
   * and the bit at the result is clear unless the result is 64.
   */
  lemma FirstZeroBitSpec(v: bv64)
    ensures var r := FirstZeroBit(v);
            0 <= r <= 64 && (forall j :: 0 <= j < r ==> Bit(v, j)) && (r < 64 ==> !Bit(v, r))
  {
    FirstZeroBitFromSpec(v, 0);
  }

  /** The empty mask's first free column is 0. */
  lemma FirstZeroBitOfZero()
    ensures FirstZeroBit(0) == 0
  {
    ZeroHasNoBit(0);
  }

  /**
   * `findFirstZeroBit`: scans positions 0..63 and returns the first whose
   * bit is clear, or 64 when every bit is set.
   */
  method FindFirstZeroBit(v: bv64) returns (r: int)
    ensures 0 <= r <= 64
    ensures forall j :: 0 <= j < r ==> Bit(v, j)
    ensures r < 64 ==> !Bit(v, r)
    ensures r == FirstZeroBit(v)
  {
    var ii := 0;
    while ii < 64
      invariant 0 <= ii <= 64
      invariant forall j :: 0 <= j < ii ==> Bit(v, j)
      invariant FirstZeroBitFrom(v, ii) == FirstZeroBit(v)
    {
      if !Bit(v, ii) {
        return ii;
      }
      ii := ii + 1;
    }
    return 64;
  }
}
