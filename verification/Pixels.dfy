/** 0xAARRGGBB pixels and straight-alpha compositing. Shifts and masks are written as division
    and remainder; the bit-or that packs a pixel is a sum because its fields cannot overlap. */
module Pixels {
  import opened Basics

  type Pixel = x: int | 0 <= x < 0x1_0000_0000

  function Alpha(p: Pixel): Byte { p / 0x100_0000 }

  function Red(p: Pixel): Byte { p / 0x1_0000 % 256 }

  function Green(p: Pixel): Byte { p / 0x100 % 256 }

  function Blue(p: Pixel): Byte { p % 256 }

  function Pack(a: Byte, r: Byte, g: Byte, b: Byte): Pixel {
    a * 0x100_0000 + r * 0x1_0000 + g * 0x100 + b
  }

  lemma DivMod256(hi: int, lo: Byte)
    ensures (hi * 256 + lo) / 256 == hi && (hi * 256 + lo) % 256 == lo
  {
  }

  lemma DivTwice(p: nat)
    ensures p / 0x1_0000 == p / 256 / 256 && p / 0x100_0000 == p / 256 / 256 / 256
  {
  }

  lemma UnpackPack(a: Byte, r: Byte, g: Byte, b: Byte)
    ensures var p := Pack(a, r, g, b);
            Alpha(p) == a && Red(p) == r && Green(p) == g && Blue(p) == b
  {
    DivTwice(Pack(a, r, g, b));
    DivMod256((a * 256 + r) * 256 + g, b);
    DivMod256(a * 256 + r, g);
    DivMod256(a, r);
  }

  lemma PackUnpack(p: Pixel)
    ensures Pack(Alpha(p), Red(p), Green(p), Blue(p)) == p
  {
    DivTwice(p);
  }

  /** The weights of source and destination; only their sum is rounded away. */
  function SourceWeight(sa: Byte): nat { sa * 255 }

  function TargetWeight(sa: Byte, da: Byte): nat { da * (255 - sa) }

  /** The rounded weighted mean of two channels. */
  function Mix(s: int, d: int, ws: nat, wd: nat): int
    requires ws + wd > 0
  {
    (s * ws + d * wd + (ws + wd) / 2) / (ws + wd)
  }

  lemma WeightsFit(sa: Byte, da: Byte)
    requires 0 < sa
    ensures 0 < SourceWeight(sa) + TargetWeight(sa, da) <= 255 * 255
    ensures sa * 255 <= SourceWeight(sa) + TargetWeight(sa, da)
    ensures da * 255 <= SourceWeight(sa) + TargetWeight(sa, da)
  {
    var both := sa * da;
    assert 0 <= both && both <= 255 * sa && both <= 255 * da by {
      MulBounds(da, sa, 0, 255);
      MulBounds(sa, da, 0, 255);
    }
    assert 255 * 255 - 255 * sa - 255 * da + both == (255 - sa) * (255 - da);
    MulBounds(255 - sa, 255 - da, 0, 255);
    assert TargetWeight(sa, da) == 255 * da - both;
  }

  /** A weighted mean lies where both operands do, and the dividend fits in 32 bits. */
  lemma MixBetween(s: Byte, d: Byte, ws: nat, wd: nat, lo: int, hi: int)
    requires 0 < ws + wd <= 255 * 255 && 0 <= lo <= s <= hi <= 255 && lo <= d <= hi
    ensures lo <= Mix(s, d, ws, wd) <= hi
    ensures s * ws + d * wd + (ws + wd) / 2 < 0x1_0000_0000
  {
    var sum := ws + wd;
    var n := s * ws + d * wd + sum / 2;
    MulBounds(s, ws, lo, hi);
    MulBounds(d, wd, lo, hi);
    assert lo * ws + lo * wd == lo * sum && hi * ws + hi * wd == hi * sum;
    assert lo * sum <= n < hi * sum + sum;
    DivBetween(n, sum, lo, hi);
    assert hi * sum <= 255 * sum by { MulBounds(hi, sum, 0, 255); }
  }

  lemma MulBounds(v: int, weight: nat, lo: int, hi: int)
    requires lo <= v <= hi
    ensures lo * weight <= v * weight <= hi * weight
  {
    assert (v - lo) * weight >= 0 && (hi - v) * weight >= 0;
  }

  lemma DivBetween(n: int, d: int, lo: int, hi: int)
    requires d > 0 && lo * d <= n < hi * d + d
    ensures lo <= n / d <= hi
  {
    var q := n / d;
    assert q * d <= n < q * d + d;
    if q < lo { MulBounds(q, d, q, lo - 1); }
    if q > hi { MulBounds(q, d, hi + 1, q); }
  }

  function OverAlpha(sa: Byte, da: Byte): (a: int)
    requires 0 < sa
    ensures sa <= a <= 255 && da <= a
  {
    WeightsFit(sa, da);
    (SourceWeight(sa) + TargetWeight(sa, da) + 127) / 255
  }

  function OverChannel(s: Byte, d: Byte, sa: Byte, da: Byte): (c: Byte)
    requires 0 < sa
    ensures (if s < d then s else d) <= c <= (if s < d then d else s)
  {
    WeightsFit(sa, da);
    MixBetween(s, d, SourceWeight(sa), TargetWeight(sa, da), if s < d then s else d, if s < d then d else s);
    Mix(s, d, SourceWeight(sa), TargetWeight(sa, da))
  }

  /** `src` composited over `dst`. The types of the packed fields are the proof that each fits
      its byte. */
  function Over(dst: Pixel, src: Pixel): Pixel {
    var sa, da := Alpha(src), Alpha(dst);
    if sa == 0 then dst
    else if sa == 255 then src
    else if da == 0 then src
    else
      Pack(OverAlpha(sa, da), OverChannel(Red(src), Red(dst), sa, da),
           OverChannel(Green(src), Green(dst), sa, da), OverChannel(Blue(src), Blue(dst), sa, da))
  }

  function OverAll(dst: Pixel, srcs: seq<Pixel>): Pixel {
    if srcs == [] then dst else Over(OverAll(dst, srcs[..|srcs| - 1]), srcs[|srcs| - 1])
  }

  datatype Channel = R | G | B

  function Part(p: Pixel, c: Channel): Byte {
    match c case R => Red(p) case G => Green(p) case B => Blue(p)
  }

  lemma OverBetween(dst: Pixel, src: Pixel, c: Channel, lo: int, hi: int)
    requires lo <= Part(dst, c) <= hi && lo <= Part(src, c) <= hi
    ensures lo <= Part(Over(dst, src), c) <= hi
    ensures Alpha(Over(dst, src)) >= Alpha(src) && Alpha(Over(dst, src)) >= Alpha(dst)
  {
    var sa, da := Alpha(src), Alpha(dst);
    if 0 < sa < 255 && 0 < da {
      UnpackPack(OverAlpha(sa, da), OverChannel(Red(src), Red(dst), sa, da),
                 OverChannel(Green(src), Green(dst), sa, da), OverChannel(Blue(src), Blue(dst), sa, da));
    }
  }

  /** Compositing any list of sources keeps every channel between the least and the greatest
      value it met, never lowers alpha below any source or the start, and so keeps an opaque
      pixel opaque. */
  lemma {:induction false} OverAllBounded(dst: Pixel, srcs: seq<Pixel>, c: Channel, lo: int, hi: int)
    requires lo <= Part(dst, c) <= hi && forall s | s in srcs :: lo <= Part(s, c) <= hi
    ensures lo <= Part(OverAll(dst, srcs), c) <= hi
    ensures Alpha(OverAll(dst, srcs)) >= Alpha(dst)
    ensures forall s | s in srcs :: Alpha(OverAll(dst, srcs)) >= Alpha(s)
    ensures Alpha(dst) == 255 ==> Alpha(OverAll(dst, srcs)) == 255
  {
    if srcs != [] {
      var n := |srcs| - 1;
      assert srcs == srcs[..n] + [srcs[n]];
      OverAllBounded(dst, srcs[..n], c, lo, hi);
      OverBetween(OverAll(dst, srcs[..n]), srcs[n], c, lo, hi);
    }
  }

  lemma {:induction false} OverAllConcat(dst: Pixel, a: seq<Pixel>, b: seq<Pixel>)
    ensures OverAll(dst, a + b) == OverAll(OverAll(dst, a), b)
  {
    if b == [] {
      assert a + b == a;
    } else {
      assert (a + b)[..|a + b| - 1] == a + b[..|b| - 1];
      OverAllConcat(dst, a, b[..|b| - 1]);
    }
  }

  /** Nothing under an opaque source is seen: however a pixel looked and whatever was composited
      before, only the source and what follows it count. */
  lemma OpaqueHides(dst: Pixel, before: seq<Pixel>, src: Pixel, after: seq<Pixel>)
    requires Alpha(src) == 255
    ensures OverAll(dst, before + [src] + after) == OverAll(src, after)
  {
    OverAllConcat(dst, before + [src], after);
    OverAllConcat(dst, before, [src]);
    assert [src][..0] == [];
  }

  function Seen(srcs: seq<Pixel>): seq<Pixel> {
    if srcs == [] then []
    else
      var before := Seen(srcs[..|srcs| - 1]);
      if Alpha(srcs[|srcs| - 1]) == 0 then before else before + [srcs[|srcs| - 1]]
  }

  /** Sources without any alpha may be left out of a drawing, colours and all. */
  lemma {:induction false} TransparentIsUnseen(dst: Pixel, srcs: seq<Pixel>)
    ensures OverAll(dst, srcs) == OverAll(dst, Seen(srcs))
  {
    if srcs != [] {
      var n := |srcs| - 1;
      TransparentIsUnseen(dst, srcs[..n]);
      assert (Seen(srcs[..n]) + [srcs[n]])[..|Seen(srcs[..n])|] == Seen(srcs[..n]);
    }
  }

  /** The rounding is to nearest: twice the error of a channel is at most the weight sum. */
  lemma MixNearest(s: Byte, d: Byte, ws: nat, wd: nat)
    requires ws + wd > 0
    ensures var err := Mix(s, d, ws, wd) * (ws + wd) - (s * ws + d * wd);
            -(ws + wd) <= 2 * err <= ws + wd
  {
    var sum := ws + wd;
    var n := s * ws + d * wd + sum / 2;
    assert n / sum * sum <= n < n / sum * sum + sum;
  }

  // ---------- What compositing computes ----------

  lemma OverParts(dst: Pixel, src: Pixel, c: Channel)
    requires 0 < Alpha(src) < 255 && 0 < Alpha(dst)
    ensures Alpha(Over(dst, src)) == OverAlpha(Alpha(src), Alpha(dst))
    ensures Part(Over(dst, src), c) == OverChannel(Part(src, c), Part(dst, c), Alpha(src), Alpha(dst))
  {
    hide OverChannel, OverAlpha, Pack;
    var sa, da := Alpha(src), Alpha(dst);
    UnpackPack(OverAlpha(sa, da), OverChannel(Red(src), Red(dst), sa, da),
               OverChannel(Green(src), Green(dst), sa, da), OverChannel(Blue(src), Blue(dst), sa, da));
  }

  /** The sum of the weights of source and destination, by their alphas. */
  function WeightSum(sa: int, da: int): int { sa * 255 + da * (255 - sa) }

  /** A composited channel is the weighted mean of source and destination, rounded to nearest: twice
      the error is at most the sum of the weights. */
  lemma OverNearest(dst: Pixel, src: Pixel, c: Channel)
    requires 0 < Alpha(src) < 255 && 0 < Alpha(dst)
    ensures var sa, da, w := Alpha(src), Alpha(dst), WeightSum(Alpha(src), Alpha(dst));
            var err := Part(Over(dst, src), c) * w - (Part(src, c) * (sa * 255) + Part(dst, c) * (da * (255 - sa)));
            -w <= 2 * err <= w
  {
    OverParts(dst, src, c);
    hide Over, Alpha, Part;
    ChannelNearest(Part(src, c), Part(dst, c), Alpha(src), Alpha(dst));
  }

  lemma ChannelNearest(s: Byte, d: Byte, sa: Byte, da: Byte)
    requires 0 < sa
    ensures var w := WeightSum(sa, da);
            var err := OverChannel(s, d, sa, da) * w - (s * (sa * 255) + d * (da * (255 - sa)));
            -w <= 2 * err <= w
  {
    WeightsFit(sa, da);
    hide Mix;
    MixNearest(s, d, SourceWeight(sa), TargetWeight(sa, da));
  }

  /** So is its alpha, on the scale of 255. */
  lemma OverAlphaNearest(dst: Pixel, src: Pixel)
    requires 0 < Alpha(src) < 255 && 0 < Alpha(dst)
    ensures var err := Alpha(Over(dst, src)) * 255 - WeightSum(Alpha(src), Alpha(dst)); -255 <= 2 * err <= 255
  {
    OverParts(dst, src, R);
    hide Over, Alpha;
  }

  /** The distance of a channel of the composite from the source's. */
  function Away(dst: Pixel, src: Pixel, c: Channel): nat {
    var d := Part(Over(dst, src), c) - Part(src, c);
    if d < 0 then -d else d
  }

  lemma Quotients(a: nat, b: nat, w: nat)
    requires w > 0 && a <= b
    ensures a / w <= b / w
  {
    var q := a / w;
    assert q * w <= a;
    DivBetween(b, w, q, b / w);
  }

  lemma ChannelMoves(s: Byte, d: Byte, sa: Byte, sb: Byte)
    requires 0 < sa <= sb
    ensures var x, y := OverChannel(s, d, sa, 255), OverChannel(s, d, sb, 255);
            if s >= d then x <= y <= s else s <= y <= x
  {
    var a, b := s * (sa * 255) + d * (255 * (255 - sa)), s * (sb * 255) + d * (255 * (255 - sb));
    assert SourceWeight(sa) + TargetWeight(sa, 255) == 65025 && SourceWeight(sb) + TargetWeight(sb, 255) == 65025;
    assert OverChannel(s, d, sa, 255) == (a + 32512) / 65025 && OverChannel(s, d, sb, 255) == (b + 32512) / 65025;
    MixRises(s, d, sa, sb);
    if s >= d { Quotients(a + 32512, b + 32512, 65025); } else { Quotients(b + 32512, a + 32512, 65025); }
  }

  lemma MixRises(s: Byte, d: Byte, sa: Byte, sb: Byte)
    requires sa <= sb
    ensures var a, b := s * (sa * 255) + d * (255 * (255 - sa)), s * (sb * 255) + d * (255 * (255 - sb));
            if s >= d then a <= b else b <= a
  {
    var step := 255 * (sb - sa);
    assert s * (sb * 255) - s * (sa * 255) == s * step;
    assert d * (255 * (255 - sa)) - d * (255 * (255 - sb)) == d * step;
    if s >= d { MulBounds(s, step, d, s); } else { MulBounds(d, step, s, d); }
  }

  /** Over an opaque pixel, more source alpha never moves a channel away from the source. */
  lemma MoreAlphaIsCloser(dst: Pixel, src: Pixel, more: Pixel, c: Channel)
    requires Alpha(dst) == 255 && Alpha(src) <= Alpha(more) && Part(src, c) == Part(more, c)
    ensures Away(dst, more, c) <= Away(dst, src, c)
  {
    var s, d := Part(src, c), Part(dst, c);
    if 0 < Alpha(src) && Alpha(more) < 255 {
      OverParts(dst, src, c);
      OverParts(dst, more, c);
      hide Over, Alpha, Part, OverChannel;
      ChannelMoves(s, d, Alpha(src), Alpha(more));
    } else if 0 < Alpha(more) {
      hide Part;
      OverBetween(dst, more, c, if s < d then s else d, if s < d then d else s);
    }
  }
}
