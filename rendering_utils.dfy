/**
 * `EventRenderingUtils`: the colour of a declined event, which is the
 * event's colour blended with opaque white, and the alpha of a declined
 * event's text. Colours are Java `int`s holding ARGB bytes; they are
 * modelled as their 32 bits, so the source's wrap-around on overflow and
 * its sign-extending shift are written out.
 */
module RenderingUtils {
  const DECLINED_EVENT_ALPHA: bv32 := 0x66
  const DECLINED_EVENT_TEXT_ALPHA := 0xC0

  /** `getDeclinedEventTextAlpha`. */
  function DeclinedEventTextAlpha(): (a: int)
    ensures a == 0xC0 && 0 <= a <= 0xff
  {
    DECLINED_EVENT_TEXT_ALPHA
  }

  /** Java's `>> 8` on an `int`: the sign bit is copied into the top byte. */
  function ShiftRight8(x: bv32): bv32
  {
    (x >> 8) | (if x & 0x8000_0000 != 0 then 0xff00_0000 else 0)
  }

  /** `getDeclinedColorFromColor`, in 32-bit arithmetic. */
  function DeclinedColorFromColor(color: bv32): (c: bv32)
    ensures c >> 24 == 0xff
  {
    var bg: bv32 := 0xffff_ffff;
    var a := DECLINED_EVENT_ALPHA;
    var r := ((color & 0x00ff_0000) * a + (bg & 0x00ff_0000) * (0xff - a)) & 0xff00_0000;
    var g := ((color & 0x0000_ff00) * a + (bg & 0x0000_ff00) * (0xff - a)) & 0x00ff_0000;
    var b := ((color & 0x0000_00ff) * a + (bg & 0x0000_00ff) * (0xff - a)) & 0x0000_ff00;
    0xff00_0000 | ShiftRight8(r | g | b)
  }

  /** The byte of `color` at bit `8 * k`: blue, green, red and alpha for k = 0..3. */
  function Byte(color: bv32, k: nat): int
    requires k < 4
  {
    if k == 0 then (color & 0xff) as int
    else if k == 1 then ((color >> 8) & 0xff) as int
    else if k == 2 then ((color >> 16) & 0xff) as int
    else ((color >> 24) & 0xff) as int
  }

  /** One colour channel `c` at `DECLINED_EVENT_ALPHA` over white (channel 0xff). */
  function Blend(c: int): int
  {
    (c * 0x66 + 0xff * 0x99) / 256
  }

  /** The channel blend in 32-bit arithmetic, on one byte. */
  function BlendBits(c: bv32): bv32
  {
    (c * 0x66 + 0xff * 0x99) >> 8
  }

  /** The same blend in 16 bits, which cannot overflow on a byte. */
  function Blend16(c: bv16): bv16
  {
    (c * 0x66 + 0x9867) >> 8
  }

  lemma BlendBitsNarrow(c: bv32)
    requires c < 256
    ensures BlendBits(c) < 0x1_0000 && BlendBits(c) as bv16 == Blend16(c as bv16)
  {
  }

  lemma Blend16IsBlend(c: bv16)
    requires c < 256
    ensures Blend16(c) as int == Blend(c as int)
  {
  }

  lemma NarrowValue(x: bv32)
    requires x < 0x1_0000
    ensures (x as bv16) as int == x as int
  {
  }

  lemma BlendBitsIsBlend(c: bv32)
    requires c < 256
    ensures BlendBits(c) as int == Blend(c as int)
  {
    BlendBitsNarrow(c);
    Blend16IsBlend(c as bv16);
    NarrowValue(c);
    NarrowValue(BlendBits(c));
  }

  /** The declined colour's bytes: opaque, each channel blended with white. */
  lemma DeclinedBytes(color: bv32)
    ensures var d := DeclinedColorFromColor(color);
            (d >> 24) & 0xff == 0xff
            && (d >> 16) & 0xff == BlendBits((color >> 16) & 0xff)
            && (d >> 8) & 0xff == BlendBits((color >> 8) & 0xff)
            && d & 0xff == BlendBits(color & 0xff)
  {
  }

  /**
   * The declined colour is opaque whatever the input's alpha, and each of
   * its channels is `(c * 0x66 + 0xff * 0x99) / 256` of the input's
   * channel `c`.
   */
  lemma DeclinedColorChannels(color: bv32)
    ensures Byte(DeclinedColorFromColor(color), 3) == 0xff
    ensures forall k :: 0 <= k < 3 ==> Byte(DeclinedColorFromColor(color), k) == Blend(Byte(color, k))
  {
    DeclinedBytes(color);
    BlendBitsIsBlend((color >> 16) & 0xff);
    BlendBitsIsBlend((color >> 8) & 0xff);
    BlendBitsIsBlend(color & 0xff);
  }

  /** A blended channel lies in 152..254 and grows with its input. */
  lemma BlendBounds(c: int, c': int)
    requires 0 <= c <= c' <= 0xff
    ensures 152 <= Blend(c) <= Blend(c') <= 254
  {
  }
}
