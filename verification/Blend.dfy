/** Blending one cursor pixel into one framebuffer pixel, with shifts in place of a division. */
module Blend {
  import opened Arithmetic

  function ShiftDown(n: nat): nat {
    Wrap32(n + Wrap32((n + 1) * 256)) / 65536
  }

  function Weighted(pixel: nat, blend: nat, alpha: nat): nat {
    Times(pixel, 255 - alpha) + Times(blend, alpha)
  }

  function BlendComponent(pixel: nat, blend: nat, alpha: nat): nat {
    ShiftDown(Wrap32(Weighted(pixel, blend, alpha)))
  }

  lemma WeightedIsProduct(pixel: nat, blend: nat, alpha: nat)
    requires alpha <= 255
    ensures Weighted(pixel, blend, alpha) == pixel * (255 - alpha) + blend * alpha
  {
    TimesIsProduct(pixel, 255 - alpha);
    TimesIsProduct(blend, alpha);
  }

  lemma Times255(a: nat)
    ensures Times(a, 255) == 255 * a
  {
    TimesIsProduct(a, 255);
  }

  lemma WeightedBetween(pixel: nat, blend: nat, alpha: nat, low: nat, high: nat)
    requires low <= pixel <= high && low <= blend <= high && alpha <= 255
    ensures 255 * low <= Weighted(pixel, blend, alpha) <= 255 * high
  {
    hide Times;
    TimesMonotone(low, 255 - alpha, pixel, 255 - alpha);
    TimesMonotone(low, alpha, blend, alpha);
    TimesMonotone(pixel, 255 - alpha, high, 255 - alpha);
    TimesMonotone(blend, alpha, high, alpha);
    TimesSplit(low, 255 - alpha, alpha);
    TimesSplit(high, 255 - alpha, alpha);
    Times255(low);
    Times255(high);
  }

  /** Adding the shifted copy of itself and dropping 16 bits divides by 255 exactly, with no
      wrap-around on the way. */
  lemma ShiftDownDividesBy255(n: nat)
    requires n <= 255 * 255
    ensures ShiftDown(n) == n / 255
  {
    var q, r := n / 255, n % 255;
    assert n == 255 * q + r && 0 <= r <= 254 && 0 <= q <= 255;
    Unwrapped((n + 1) * 256);
    Unwrapped(n + (n + 1) * 256);
    HighHalf(n + (n + 1) * 256, q, 257 * r + 256 - q);
  }

  lemma HighHalf(n: nat, q: nat, low: nat)
    requires n == 65536 * q + low && low < 65536
    ensures n / 65536 == q
  {
  }

  lemma QuotientBetween(n: nat, low: nat, high: nat)
    requires 255 * low <= n <= 255 * high
    ensures low <= n / 255 <= high
  {
  }

  /** For bytes the shifts give the floor of the weighted mean; it lies between its inputs, is the
      framebuffer at alpha 0 and the cursor at alpha 255. */
  lemma BlendComponentExact(pixel: nat, blend: nat, alpha: nat)
    requires pixel <= 255 && blend <= 255 && alpha <= 255
    ensures var r := BlendComponent(pixel, blend, alpha);
      && r == Weighted(pixel, blend, alpha) / 255
      && (if pixel < blend then pixel <= r <= blend else blend <= r <= pixel)
      && (alpha == 0 ==> r == pixel)
      && (alpha == 255 ==> r == blend)
  {
    if pixel < blend {
      WeightedBetween(pixel, blend, alpha, pixel, blend);
    } else {
      WeightedBetween(pixel, blend, alpha, blend, pixel);
    }
    Times255(pixel);
    Times255(blend);
    FromWeighted(Weighted(pixel, blend, alpha), pixel, blend, alpha);
  }

  /** The same with products: no division is needed to divide the weighted sum by 255. */
  lemma BlendComponentIsMean(pixel: nat, blend: nat, alpha: nat)
    requires pixel <= 255 && blend <= 255 && alpha <= 255
    ensures BlendComponent(pixel, blend, alpha) == (pixel * (255 - alpha) + blend * alpha) / 255
  {
    BlendComponentExact(pixel, blend, alpha);
    WeightedIsProduct(pixel, blend, alpha);
  }

  lemma FromWeighted(n: nat, pixel: nat, blend: nat, alpha: nat)
    requires pixel <= 255 && blend <= 255
    requires if pixel < blend then 255 * pixel <= n <= 255 * blend else 255 * blend <= n <= 255 * pixel
    requires alpha == 0 ==> n == 255 * pixel
    requires alpha == 255 ==> n == 255 * blend
    ensures var r := ShiftDown(Wrap32(n));
      && r == n / 255
      && (if pixel < blend then pixel <= r <= blend else blend <= r <= pixel)
      && (alpha == 0 ==> r == pixel)
      && (alpha == 255 ==> r == blend)
  {
    Unwrapped(n);
    ShiftDownDividesBy255(n);
    if pixel < blend {
      QuotientBetween(n, pixel, blend);
    } else {
      QuotientBetween(n, blend, pixel);
    }
  }

  // ---- Three channels in a word ----

  function Channel0(v: bv32): bv8 { (v & 0xff) as bv8 }

  function Channel1(v: bv32): bv8 { ((v & 0xff00) >> 8) as bv8 }

  function Channel2(v: bv32): bv8 { ((v & 0xff0000) >> 16) as bv8 }

  function Alpha(v: bv32): bv8 { (v >> 24) as bv8 }

  function Mean(pixel: bv8, blend: bv8, alpha: bv8): int {
    Weighted(pixel as int, blend as int, alpha as int) / 255
  }

  /** The byte of value `n`, by counting up to it. */
  function ToByte(n: nat): (b: bv8)
    requires n <= 255
    ensures b as int == n
  {
    if n == 0 then 0 else ToByte(n - 1) + 1
  }

  function BlendByte(pixel: bv8, blend: bv8, alpha: bv8): (r: bv8)
    ensures r as int == Mean(pixel, blend, alpha)
  {
    ByteMean(pixel as int, blend as int, alpha as int);
    ToByte(BlendComponent(pixel as int, blend as int, alpha as int))
  }

  lemma ByteMean(pixel: nat, blend: nat, alpha: nat)
    requires pixel <= 255 && blend <= 255 && alpha <= 255
    ensures BlendComponent(pixel, blend, alpha) == Weighted(pixel, blend, alpha) / 255 <= 255
  {
    BlendComponentExact(pixel, blend, alpha);
  }

  function Pack(c0: bv8, c1: bv8, c2: bv8): bv32 {
    (c0 as bv32) | ((c1 as bv32) << 8) | ((c2 as bv32) << 16)
  }

  function BlendAlpha(pixel: bv32, blend: bv32): bv32 {
    Pack(BlendByte(Channel0(pixel), Channel0(blend), Alpha(blend)),
         BlendByte(Channel1(pixel), Channel1(blend), Alpha(blend)),
         BlendByte(Channel2(pixel), Channel2(blend), Alpha(blend)))
  }

  /** The packed channels do not overlap and unpack to what was packed; the top byte is zero. */
  lemma PackUnpacks(c0: bv8, c1: bv8, c2: bv8)
    ensures (c0 as bv32) & ((c1 as bv32) << 8) == 0
    ensures ((c0 as bv32) | ((c1 as bv32) << 8)) & ((c2 as bv32) << 16) == 0
    ensures var v := Pack(c0, c1, c2);
      Channel0(v) == c0 && Channel1(v) == c1 && Channel2(v) == c2 && Alpha(v) == 0
  {
  }

  /** Each channel of a blended pixel is the exact mean of that channel of its two inputs. */
  lemma BlendAlphaExact(pixel: bv32, blend: bv32)
    ensures var v, a := BlendAlpha(pixel, blend), Alpha(blend);
      && Channel0(v) as int == Mean(Channel0(pixel), Channel0(blend), a)
      && Channel1(v) as int == Mean(Channel1(pixel), Channel1(blend), a)
      && Channel2(v) as int == Mean(Channel2(pixel), Channel2(blend), a)
      && Alpha(v) == 0
  {
    var a := Alpha(blend);
    PackUnpacks(BlendByte(Channel0(pixel), Channel0(blend), a),
                BlendByte(Channel1(pixel), Channel1(blend), a),
                BlendByte(Channel2(pixel), Channel2(blend), a));
  }

  // ---- The same on the four bytes of a word ----

  type Byte = n: nat | n <= 255

  /** A little-endian 32-bit word in memory. */
  datatype Word = Word(b0: Byte, b1: Byte, b2: Byte, b3: Byte)

  const ZERO := Word(0, 0, 0, 0)

  function BlendChannel(pixel: Byte, blend: Byte, alpha: Byte): (r: Byte)
    ensures r == Weighted(pixel, blend, alpha) / 255
  {
    BlendComponentExact(pixel, blend, alpha);
    BlendComponent(pixel, blend, alpha)
  }

  function BlendWord(pixel: Word, blend: Word): Word {
    Word(BlendChannel(pixel.b0, blend.b0, blend.b3), BlendChannel(pixel.b1, blend.b1, blend.b3),
         BlendChannel(pixel.b2, blend.b2, blend.b3), 0)
  }

  /** The bytes of a 32-bit value, lowest first. */
  function WordOf(v: bv32): Word {
    Word(Channel0(v) as int, Channel1(v) as int, Channel2(v) as int, Alpha(v) as int)
  }

  /** Masks, shifts and ors on words do to the four bytes what `BlendWord` says. */
  lemma BlendAlphaIsBlendWord(pixel: bv32, blend: bv32)
    ensures WordOf(BlendAlpha(pixel, blend)) == BlendWord(WordOf(pixel), WordOf(blend))
  {
  }

  /** A transparent cursor pixel leaves the three channels alone, an opaque one replaces them. */
  lemma BlendWordExtremes(pixel: Word, blend: Word)
    ensures blend.b3 == 0 ==> BlendWord(pixel, blend) == pixel.(b3 := 0)
    ensures blend.b3 == 255 ==> BlendWord(pixel, blend) == blend.(b3 := 0)
  {
    BlendComponentExact(pixel.b0, blend.b0, blend.b3);
    BlendComponentExact(pixel.b1, blend.b1, blend.b3);
    BlendComponentExact(pixel.b2, blend.b2, blend.b3);
  }

  lemma TransparentKeeps(pixel: Word, blend: Word)
    requires blend.b3 == 0
    ensures BlendWord(pixel, blend).b0 == pixel.b0
  {
    BlendComponentExact(pixel.b0, blend.b0, 0);
  }
}
