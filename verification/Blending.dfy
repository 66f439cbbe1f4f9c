/** Alpha blending of packed 32-bit pixels: two channels are multiplied in one word, and it comes to
    the same as mixing each channel by itself. */
module Blending {
  const WORD: nat := 0x1_0000_0000

  /** 0xAARRGGBB. */
  type Pixel = p: nat | p < WORD

  /** The bytes of the word, blue first. */
  function Channel(p: nat, k: nat): (b: nat)
    ensures b < 256
  {
    match k
    case 0 => p % 256
    case 1 => p / 256 % 256
    case 2 => p / 0x1_0000 % 256
    case _ => p / 0x100_0000 % 256
  }

  /** `word & 0x00FF00FF` and `word & 0x0000FF00`. */
  function RedBlue(word: nat): nat { word / 0x1_0000 % 256 * 0x1_0000 + word % 256 }

  function Green(word: nat): nat { word / 256 % 256 * 256 }

  function Times(a: nat, b: nat): nat { a * b }

  /** The packed mix of two masked words, with the wrap-around of 32-bit arithmetic. */
  function Mixed(source: nat, destination: nat, alpha: nat): nat
    requires alpha < 256
  {
    (Times(source, alpha) % WORD + Times(destination, 255 - alpha) % WORD) % WORD / 256
  }

  function Blend(destination: Pixel, source: Pixel): Pixel {
    var alpha := source / 0x100_0000;
    if alpha == 255 then source
    else if alpha == 0 then destination
    else
      var rb := RedBlue(Mixed(RedBlue(source), RedBlue(destination), alpha));
      var g := Green(Mixed(Green(source), Green(destination), alpha));
      0xFF00_0000 + rb + g
  }

  /** An opaque pixel replaces what is there, a transparent one leaves it. */
  lemma BlendExtremes(destination: Pixel, source: Pixel)
    ensures Channel(source, 3) == 255 ==> Blend(destination, source) == source
    ensures Channel(source, 3) == 0 ==> Blend(destination, source) == destination
  {
    TopByte(source);
  }

  lemma TopByte(p: Pixel)
    ensures Channel(p, 3) == p / 0x100_0000
  {
  }

  // ----- one channel -----

  /** 256 times what one channel should become, before rounding down. */
  function Weighted(s: nat, d: nat, alpha: nat): nat
    requires alpha < 256
  {
    Times(s, alpha) + Times(d, 255 - alpha)
  }

  lemma TimesLe(a: nat, m: nat, b: nat)
    requires a <= m
    ensures Times(a, b) <= Times(m, b)
  {
  }

  lemma TimesSplit(m: nat, alpha: nat)
    requires alpha < 256
    ensures Times(m, alpha) + Times(m, 255 - alpha) == m * 255
  {
    assert m * alpha + m * (255 - alpha) == m * (alpha + (255 - alpha));
  }

  /** A mix lies at or below the larger of the two. */
  lemma WeightedBound(s: nat, d: nat, alpha: nat)
    requires s < 256 && d < 256 && alpha < 256
    ensures Weighted(s, d, alpha) <= 65025
    ensures Weighted(s, d, alpha) / 256 <= if s >= d then s else d
  {
    hide Times;
    var m := if s >= d then s else d;
    TimesLe(s, m, alpha);
    TimesLe(d, m, 255 - alpha);
    TimesSplit(m, alpha);
    assert Weighted(s, d, alpha) <= m * 255;
  }

  // ----- the packed words -----

  lemma Distribute(r: nat, b: nat, a: nat)
    ensures Times(r * 0x1_0000 + b, a) == Times(r, a) * 0x1_0000 + Times(b, a)
    ensures Times(b * 256, a) == Times(b, a) * 256
  {
  }

  lemma Packed(r: nat, b: nat, r': nat, b': nat)
    requires r + r' <= 65025 && b + b' <= 65025
    ensures ((r * 0x1_0000 + b) % WORD + (r' * 0x1_0000 + b') % WORD) % WORD == (r + r') * 0x1_0000 + (b + b')
  {
  }

  lemma Unpacked(r: nat, b: nat)
    requires r <= 65025 && b <= 65025
    ensures RedBlue((r * 0x1_0000 + b) / 256) == r / 256 * 0x1_0000 + b / 256
  {
    assert (r * 0x1_0000 + b) / 256 == r * 256 + b / 256;
    assert (r * 256 + b / 256) / 0x1_0000 == r / 256;
    assert b / 256 < 256 && r / 256 < 256;
    assert (r * 256 + b / 256) % 256 == b / 256;
  }

  /** Two channels mixed in one word come out as if mixed apart. */
  lemma TwoChannels(r1: nat, b1: nat, r2: nat, b2: nat, alpha: nat)
    requires r1 < 256 && b1 < 256 && r2 < 256 && b2 < 256 && alpha < 256
    ensures RedBlue(Mixed(r1 * 0x1_0000 + b1, r2 * 0x1_0000 + b2, alpha))
            == Weighted(r1, r2, alpha) / 256 * 0x1_0000 + Weighted(b1, b2, alpha) / 256
  {
    hide Times, RedBlue;
    WeightedBound(r1, r2, alpha);
    WeightedBound(b1, b2, alpha);
    Distribute(r1, b1, alpha);
    Distribute(r2, b2, 255 - alpha);
    Packed(Times(r1, alpha), Times(b1, alpha), Times(r2, 255 - alpha), Times(b2, 255 - alpha));
    Unpacked(Weighted(r1, r2, alpha), Weighted(b1, b2, alpha));
  }

  lemma OneChannel(g1: nat, g2: nat, alpha: nat)
    requires g1 < 256 && g2 < 256 && alpha < 256
    ensures Green(Mixed(g1 * 256, g2 * 256, alpha)) == Weighted(g1, g2, alpha) / 256 * 256
  {
    hide Times, Green;
    WeightedBound(g1, g2, alpha);
    Distribute(0, g1, alpha);
    Distribute(0, g2, 255 - alpha);
    Shifted(Times(g1, alpha), Times(g2, 255 - alpha));
  }

  lemma Shifted(g: nat, g': nat)
    requires g + g' <= 65025
    ensures (g * 256 % WORD + g' * 256 % WORD) % WORD / 256 == g + g'
    ensures Green(g + g') == (g + g') / 256 * 256
  {
  }

  lemma Masks(p: Pixel)
    ensures RedBlue(p) == Channel(p, 2) * 0x1_0000 + Channel(p, 0) && Green(p) == Channel(p, 1) * 256
  {
  }

  lemma Assembled(red: nat, green: nat, blue: nat)
    requires red < 256 && green < 256 && blue < 256
    ensures var p := 0xFF00_0000 + (red * 0x1_0000 + blue) + green * 256;
            Channel(p, 0) == blue && Channel(p, 1) == green && Channel(p, 2) == red && Channel(p, 3) == 255
  {
  }

  /** In between, each colour channel is the rounded-down mix of the two, never brighter than the
      brighter one, and the result is opaque. */
  lemma BlendMixes(destination: Pixel, source: Pixel, k: nat)
    requires 0 < Channel(source, 3) < 255 && k < 3
    ensures var r := Blend(destination, source); var a := Channel(source, 3);
            && Channel(r, k) == (Channel(source, k) * a + Channel(destination, k) * (255 - a)) / 256
            && (Channel(r, k) <= Channel(source, k) || Channel(r, k) <= Channel(destination, k))
            && Channel(r, 3) == 255
  {
    TopByte(source);
    Masks(source);
    Masks(destination);
    var a := Channel(source, 3);
    hide Channel, Mixed, RedBlue, Green;
    TwoChannels(Channel(source, 2), Channel(source, 0), Channel(destination, 2), Channel(destination, 0), a);
    OneChannel(Channel(source, 1), Channel(destination, 1), a);
    WeightedBound(Channel(source, 0), Channel(destination, 0), a);
    WeightedBound(Channel(source, 1), Channel(destination, 1), a);
    WeightedBound(Channel(source, 2), Channel(destination, 2), a);
    Assembled(Weighted(Channel(source, 2), Channel(destination, 2), a) / 256,
              Weighted(Channel(source, 1), Channel(destination, 1), a) / 256,
              Weighted(Channel(source, 0), Channel(destination, 0), a) / 256);
  }

  /** `now` is `source` laid over `was`. */
  ghost predicate Over(was: Pixel, source: Pixel, now: Pixel) {
    var a := Channel(source, 3);
    if a == 255 then now == source
    else if a == 0 then now == was
    else && Channel(now, 3) == 255
         && forall k: nat | k < 3 :: Channel(now, k) == (Channel(source, k) * a + Channel(was, k) * (255 - a)) / 256
  }

  lemma BlendOver(destination: Pixel, source: Pixel)
    ensures Over(destination, source, Blend(destination, source))
  {
    BlendExtremes(destination, source);
    if 0 < Channel(source, 3) < 255 {
      BlendMixes(destination, source, 0);
      forall k: nat | k < 3
        ensures Channel(Blend(destination, source), k)
                == (Channel(source, k) * Channel(source, 3) + Channel(destination, k) * (255 - Channel(source, 3))) / 256
      {
        BlendMixes(destination, source, k);
      }
    }
    hide Blend, Channel;
  }
}
