/** Decoding UTF-8 text and cutting it to a width with an ellipsis. A text is its bytes before
    the terminator; reading at its end gives the terminator. */
module TextFit {
  import opened Basics
  import opened Utf8

  const ELLIPSIS_BYTES: seq<Byte> := Encode(ELLIPSIS)
  const INT_MAX := 0x7fff_ffff

  function ByteAt(t: seq<Byte>, i: nat): Byte { if i < |t| then t[i] else 0 }

  predicate Continues(b: Byte) { 128 <= b < 192 }

  /** How many continuation bytes a lead byte announces; 0 for a byte that cannot lead. */
  function Trail(first: Byte): nat {
    if 0xc2 <= first <= 0xdf then 1 else if 0xe0 <= first <= 0xef then 2 else if 0xf0 <= first <= 0xf4 then 3 else 0
  }

  /** The code points the panel fonts draw; all others show as the replacement character. */
  function Shown(cp: int): int { if cp <= 0xff || cp == ELLIPSIS then cp else REPLACEMENT }

  datatype Tail = Whole(cp: int, next: nat) | Broken(next: nat)

  /** Gathers `n` continuation bytes from `p` onto `cp`. */
  function Gather(t: seq<Byte>, p: nat, n: nat, cp: nat): (r: Tail)
    requires p <= |t|
    ensures p <= r.next <= |t| && r.next <= p + n && (r.Whole? ==> r.next == p + n)
    ensures forall i | p <= i < r.next :: Continues(t[i])
    ensures r.Broken? ==> !Continues(ByteAt(t, r.next))
    decreases n
  {
    if n == 0 then Whole(cp, p)
    else if !Continues(ByteAt(t, p)) then Broken(p)
    else Gather(t, p + 1, n - 1, cp * 64 + t[p] % 64)
  }

  function Least(n: nat): int { if n == 1 then 0x80 else if n == 2 then 0x800 else 0x10000 }

  function LeadBits(first: Byte, n: nat): nat { first % (if n == 1 then 32 else if n == 2 then 16 else 8) }

  /** next_cp: the code point at `p` as the fonts show it, and where the next one begins. It
      consumes at least one byte and never passes the terminator. */
  function NextCp(t: seq<Byte>, p: nat): (r: (int, nat))
    requires p < |t|
    ensures p < r.1 <= |t|
  {
    var first := t[p];
    if first < 128 then (first, p + 1)
    else
      var n := Trail(first);
      if n == 0 then (REPLACEMENT, p + 1)
      else
        match Gather(t, p + 1, n, LeadBits(first, n))
        case Broken(next) => (REPLACEMENT, next)
        case Whole(cp, next) => (if cp < Least(n) || !Scalar(cp) then REPLACEMENT else Shown(cp), next)
  }

  // ---------- Against the standard encoding ----------

  lemma GatherOne(t: seq<Byte>, p: nat, cp: nat)
    requires p + 1 <= |t| && Continues(t[p])
    ensures Gather(t, p, 1, cp) == Whole(cp * 64 + t[p] % 64, p + 1)
  {
  }

  lemma GatherTwo(t: seq<Byte>, p: nat, cp: nat)
    requires p + 2 <= |t| && Continues(t[p]) && Continues(t[p + 1])
    ensures Gather(t, p, 2, cp) == Whole((cp * 64 + t[p] % 64) * 64 + t[p + 1] % 64, p + 2)
  {
    GatherOne(t, p + 1, cp * 64 + t[p] % 64);
  }

  lemma GatherThree(t: seq<Byte>, p: nat, cp: nat)
    requires p + 3 <= |t| && Continues(t[p]) && Continues(t[p + 1]) && Continues(t[p + 2])
    ensures Gather(t, p, 3, cp) ==
            Whole(((cp * 64 + t[p] % 64) * 64 + t[p + 1] % 64) * 64 + t[p + 2] % 64, p + 3)
  {
    GatherTwo(t, p + 1, cp * 64 + t[p] % 64);
  }

  lemma Digits(hi: nat, lo: int)
    requires 0 <= lo < 64
    ensures (hi * 64 + lo) / 64 == hi && (hi * 64 + lo) % 64 == lo
  {
  }

  lemma DecodesTwo(t: seq<Byte>, p: nat, cp: int)
    requires 0x80 <= cp < 0x800 && p + 2 <= |t|
    requires t[p] == 0xc0 + cp / 64 && t[p + 1] == 0x80 + cp % 64
    ensures NextCp(t, p) == (Shown(cp), p + 2)
  {
    assert LeadBits(t[p], 1) == cp / 64;
    GatherOne(t, p + 1, cp / 64);
  }

  lemma DecodesThree(t: seq<Byte>, p: nat, cp: int, a: nat)
    requires Scalar(cp) && 0x800 <= cp < 0x10000 && p + 3 <= |t| && a == cp / 64
    requires t[p] == 0xe0 + a / 64 && t[p + 1] == 0x80 + a % 64 && t[p + 2] == 0x80 + cp % 64
    ensures NextCp(t, p) == (Shown(cp), p + 3)
  {
    assert LeadBits(t[p], 2) == a / 64;
    GatherTwo(t, p + 1, a / 64);
  }

  lemma DecodesFour(t: seq<Byte>, p: nat, cp: int, a: nat, b: nat)
    requires Scalar(cp) && 0x10000 <= cp && p + 4 <= |t| && a == cp / 64 && b == a / 64
    requires t[p] == 0xf0 + b / 64 && t[p + 1] == 0x80 + b % 64
    requires t[p + 2] == 0x80 + a % 64 && t[p + 3] == 0x80 + cp % 64
    ensures NextCp(t, p) == (Shown(cp), p + 4)
  {
    assert LeadBits(t[p], 3) == b / 64;
    GatherThree(t, p + 1, b / 64);
  }

  /** Every scalar value in its standard encoding decodes to itself as shown. */
  lemma DecodesStandard(t: seq<Byte>, p: nat, cp: int)
    requires Scalar(cp) && EncodedAt(t, p, cp)
    ensures NextCp(t, p) == (Shown(cp), p + |Encode(cp)|)
  {
    var e := Encode(cp);
    assert forall i | 0 <= i < |e| :: t[p + i] == e[i];
    SplitTwice(cp);
    if 0x80 <= cp < 0x800 {
      DecodesTwo(t, p, cp);
    } else if 0x800 <= cp < 0x10000 {
      DecodesThree(t, p, cp, cp / 64);
    } else if cp >= 0x10000 {
      DecodesFour(t, p, cp, cp / 64, cp / 64 / 64);
    }
  }

  lemma OnlyTwo(t: seq<Byte>, p: nat)
    requires p < |t| && t[p] >= 128 && Trail(t[p]) == 1 && NextCp(t, p).0 != REPLACEMENT
    ensures var (cp, next) := NextCp(t, p); Scalar(cp) && EncodedAt(t, p, cp) && next == p + |Encode(cp)|
  {
    var lead := LeadBits(t[p], 1);
    GatherOne(t, p + 1, lead);
    Digits(lead, t[p + 1] % 64);
    assert t[p..p + 2] == [t[p], t[p + 1]];
  }

  lemma OnlyThree(t: seq<Byte>, p: nat)
    requires p < |t| && t[p] >= 128 && Trail(t[p]) == 2 && NextCp(t, p).0 != REPLACEMENT
    ensures var (cp, next) := NextCp(t, p); Scalar(cp) && EncodedAt(t, p, cp) && next == p + |Encode(cp)|
  {
    var lead := LeadBits(t[p], 2);
    GatherTwo(t, p + 1, lead);
    SplitTwice(NextCp(t, p).0);
    Digits(lead, t[p + 1] % 64);
    Digits(lead * 64 + t[p + 1] % 64, t[p + 2] % 64);
    assert t[p..p + 3] == [t[p], t[p + 1], t[p + 2]];
  }

  /** Nothing else decodes to a drawn code point: overlong forms, surrogates, stray and cut
      sequences all give the replacement character. */
  lemma OnlyStandardDecodes(t: seq<Byte>, p: nat)
    requires p < |t| && NextCp(t, p).0 != REPLACEMENT
    ensures var (cp, next) := NextCp(t, p);
            Scalar(cp) && EncodedAt(t, p, cp) && next == p + |Encode(cp)|
  {
    if t[p] < 128 {
      assert t[p..p + 1] == [t[p]];
    } else if Trail(t[p]) == 1 {
      OnlyTwo(t, p);
    } else if Trail(t[p]) == 2 {
      OnlyThree(t, p);
    }
  }

  /** How many bytes of the sequence that begins with `first` may follow it: one after C2 to DF, two after E0
      to EF, three after F0 to F4, none after any other. */
  predicate Follows(first: Byte, n: nat) {
    && (n == 0 <==> first < 0xc2 || first > 0xf4) && n <= 3
    && (n >= 2 <==> 0xe0 <= first <= 0xf4) && (n == 3 <==> 0xf0 <= first <= 0xf4)
  }

  /** What cannot be shown is replaced once: the lead byte with the continuation bytes that follow it, as
      many of them as that lead byte announces and no more. */
  lemma ReplacedOnce(t: seq<Byte>, p: nat, n: nat)
    requires p < |t| && NextCp(t, p).0 == REPLACEMENT && Follows(t[p], n)
    ensures var next := NextCp(t, p).1;
            && next <= p + 1 + n && (forall i | p < i < next :: 128 <= t[i] < 192)
            && (next == p + 1 + n || next == |t| || !(128 <= t[next] < 192))
  {
    assert Trail(t[p]) == n;
  }

  // ---------- Whole texts ----------

  function Decode(t: seq<Byte>, p: nat): seq<int>
    requires p <= |t|
    decreases |t| - p
  {
    if p == |t| then [] else [NextCp(t, p).0] + Decode(t, NextCp(t, p).1)
  }

  /** What decoding can yield. */
  predicate Drawable(cp: int) { 0 <= cp <= 0xff || cp == ELLIPSIS || cp == REPLACEMENT }

  lemma NextDrawable(t: seq<Byte>, p: nat)
    requires p < |t|
    ensures Drawable(NextCp(t, p).0)
  {
  }

  lemma {:induction false} DecodeDrawable(t: seq<Byte>, p: nat, k: nat)
    requires p <= |t| && k < |Decode(t, p)|
    ensures Drawable(Decode(t, p)[k])
    decreases k
  {
    NextDrawable(t, p);
    if k > 0 { DecodeDrawable(t, NextCp(t, p).1, k - 1); }
  }

  /** Where the code points after the first `k` begin. */
  function Offset(t: seq<Byte>, p: nat, k: nat): (e: nat)
    requires p <= |t| && k <= |Decode(t, p)|
    ensures p <= e <= |t|
    decreases k
  {
    if k == 0 then p else Offset(t, NextCp(t, p).1, k - 1)
  }

  /** Cutting between code points and appending anything that does not begin with a
      continuation byte changes no code point before the cut. */
  lemma NextStable(t: seq<Byte>, p: nat, cut: nat, tail: seq<Byte>)
    requires p < cut <= |t| && NextCp(t, p).1 <= cut && tail != [] && !Continues(tail[0])
    ensures NextCp(t[..cut] + tail, p) == NextCp(t, p)
  {
    var n := Trail(t[p]);
    if t[p] >= 128 && n > 0 {
      GatherStable(t, p + 1, n, LeadBits(t[p], n), cut, tail);
    }
  }

  lemma {:induction false} GatherStable(t: seq<Byte>, p: nat, n: nat, cp: nat, cut: nat, tail: seq<Byte>)
    requires p <= cut <= |t| && Gather(t, p, n, cp).next <= cut && tail != [] && !Continues(tail[0])
    ensures Gather(t[..cut] + tail, p, n, cp) == Gather(t, p, n, cp)
    decreases n
  {
    var u := t[..cut] + tail;
    assert p < cut ==> u[p] == t[p];
    assert p == cut ==> u[p] == tail[0];
    if n > 0 && Continues(ByteAt(t, p)) && p < cut {
      GatherStable(t, p + 1, n - 1, cp * 64 + t[p] % 64, cut, tail);
    }
  }

  /** Re-decoding the first `k` code points of a text followed by an ellipsis gives just those. */
  lemma {:induction false} PrefixDecodes(t: seq<Byte>, p: nat, k: nat)
    requires p <= |t| && k <= |Decode(t, p)|
    ensures var cut := Offset(t, p, k);
            Decode(t[..cut] + ELLIPSIS_BYTES, p) == Decode(t, p)[..k] + [ELLIPSIS]
    decreases k
  {
    var cut := Offset(t, p, k);
    var u := t[..cut] + ELLIPSIS_BYTES;
    if k == 0 {
      assert u[p..p + 3] == ELLIPSIS_BYTES == Encode(ELLIPSIS);
      DecodesStandard(u, p, ELLIPSIS);
      assert Decode(u, p + 3) == [];
    } else {
      var next := NextCp(t, p).1;
      NextStable(t, p, cut, ELLIPSIS_BYTES);
      PrefixDecodes(t, next, k - 1);
    }
  }

  function Width(advance: int -> int, cps: seq<int>): int {
    if cps == [] then 0 else Width(advance, cps[..|cps| - 1]) + advance(cps[|cps| - 1])
  }

  ghost predicate Forward(advance: int -> int) {
    forall cp :: 0 <= advance(cp)
  }

  lemma ForwardAt(advance: int -> int, cp: int)
    requires Forward(advance)
    ensures 0 <= advance(cp)
  {
  }

  lemma {:induction false} WidthMonotone(advance: int -> int, cps: seq<int>, i: nat, j: nat)
    requires Forward(advance) && i <= j <= |cps|
    ensures 0 <= Width(advance, cps[..i]) <= Width(advance, cps[..j])
  {
    assert cps[..0] == [];
    if j > 0 {
      WidthMonotone(advance, cps, if i < j then i else i - 1, j - 1);
      WidthSnoc(advance, cps, j - 1);
      ForwardAt(advance, cps[j - 1]);
    }
  }

  lemma WidthSnoc(advance: int -> int, cps: seq<int>, k: nat)
    requires k < |cps|
    ensures Width(advance, cps[..k + 1]) == Width(advance, cps[..k]) + advance(cps[k])
  {
    assert cps[..k + 1][..k] == cps[..k];
  }

  /** `p` is where the code points after the first `k` of `t` begin. */
  ghost predicate At(t: seq<Byte>, p: nat, k: nat) {
    p <= |t| && k <= |Decode(t, 0)| && Offset(t, 0, k) == p && Decode(t, p) == Decode(t, 0)[k..]
  }

  lemma {:induction false} OffsetStep(t: seq<Byte>, p: nat, k: nat)
    requires p <= |t| && k < |Decode(t, p)|
    ensures Offset(t, p, k) < |t|
    ensures Offset(t, p, k + 1) == NextCp(t, Offset(t, p, k)).1
    ensures Decode(t, p)[k] == NextCp(t, Offset(t, p, k)).0
    decreases k
  {
    if k > 0 { OffsetStep(t, NextCp(t, p).1, k - 1); }
  }

  lemma Advanced(t: seq<Byte>, p: nat, k: nat)
    requires At(t, p, k) && p < |t|
    ensures k < |Decode(t, 0)| && Decode(t, 0)[k] == NextCp(t, p).0 && At(t, NextCp(t, p).1, k + 1)
  {
    assert Decode(t, p) == [NextCp(t, p).0] + Decode(t, NextCp(t, p).1);
    assert Decode(t, 0)[k..][0] == Decode(t, 0)[k];
    assert Decode(t, 0)[k + 1..] == Decode(t, 0)[k..][1..];
    OffsetStep(t, 0, k);
  }

  // ---------- The methods ----------

  /** Stops at the first byte that does not continue the sequence, so a text cut short is never
      left behind: the NUL that ends it does not continue one. */
  method GatherTail(t: seq<Byte>, p: nat, n: nat, lead: nat) returns (whole: bool, bits: nat, next: nat)
    requires p <= |t|
    ensures (if whole then Whole(bits, next) else Broken(next)) == Gather(t, p, n, lead)
  {
    bits, next := lead, p;
    for i := 0 to n
      invariant p <= next <= |t|
      invariant Gather(t, next, n - i, bits) == Gather(t, p, n, lead)
    {
      if !Continues(ByteAt(t, next)) { return false, bits, next; }
      bits := bits * 64 + t[next] % 64;
      next := next + 1;
    }
    whole := true;
  }

  method NextCodePoint(t: seq<Byte>, p: nat) returns (cp: int, next: nat)
    requires p < |t|
    ensures (cp, next) == NextCp(t, p)
  {
    var first := t[p];
    next := p + 1;
    if first < 128 { return first, next; }
    var n := if first >= 0xc2 && first <= 0xdf then 1
             else if first >= 0xe0 && first <= 0xef then 2
             else if first >= 0xf0 && first <= 0xf4 then 3 else 0;
    if n == 0 { return REPLACEMENT, next; }
    var lead: nat := first % (if n == 1 then 32 else if n == 2 then 16 else 8);
    var minimum := if n == 1 then 0x80 else if n == 2 then 0x800 else 0x10000;
    var whole, bits, end := GatherTail(t, next, n, lead);
    next := end;
    if !whole { return REPLACEMENT, next; }
    if bits < minimum || bits > 0x10ffff || (bits >= 0xd800 && bits <= 0xdfff) { return REPLACEMENT, next; }
    cp := if bits <= 0xff || bits == ELLIPSIS then bits else REPLACEMENT;
  }

  /** The width of a text, held at INT_MAX. */
  method FontWidth(advance: int -> int, t: seq<Byte>) returns (width: int)
    requires Forward(advance)
    ensures var total := Width(advance, Decode(t, 0)); width == if total > INT_MAX then INT_MAX else total
  {
    width := 0;
    var p := 0;
    ghost var cps, k := Decode(t, 0), 0;
    assert cps[..0] == [] && cps[..|cps|] == cps;
    while p < |t|
      invariant At(t, p, k) && 0 <= width <= INT_MAX && width == Width(advance, cps[..k])
      decreases |t| - p
    {
      Advanced(t, p, k);
      WidthSnoc(advance, cps, k);
      var cp, next := NextCodePoint(t, p);
      if advance(cp) > INT_MAX - width {
        WidthMonotone(advance, cps, k + 1, |cps|);
        return INT_MAX;
      }
      width := width + advance(cp);
      p := next;
      k := k + 1;
    }
    assert cps[k..] == [];
  }

  datatype Drawing = Nothing | Draw(bytes: seq<Byte>)

  /** `k` is the longest prefix, in code points, that fits with the ellipsis. */
  ghost predicate Longest(advance: int -> int, cps: seq<int>, maxW: int, k: nat) {
    && k <= |cps|
    && Width(advance, cps[..k]) + advance(ELLIPSIS) <= maxW
    && forall j | 0 <= j <= |cps| && Width(advance, cps[..j]) + advance(ELLIPSIS) <= maxW :: j <= k
  }

  /** `d` is the longest prefix that fits, `k` code points, and an ellipsis: it decodes to exactly
      those code points and is no wider than asked. */
  ghost predicate DrawsPrefix(advance: int -> int, t: seq<Byte>, maxW: int, d: Drawing, k: nat) {
    var cps := Decode(t, 0);
    && Longest(advance, cps, maxW, k) && k < |cps|
    && d == Draw(t[..Offset(t, 0, k)] + ELLIPSIS_BYTES)
    && Decode(d.bytes, 0) == cps[..k] + [ELLIPSIS]
    && Width(advance, Decode(d.bytes, 0)) <= maxW
  }

  /** font_draw_fit: the whole text when it fits, else its longest prefix that fits with an
      ellipsis, else nothing. A width of INT_MAX stands for no bound. */
  method DrawFit(advance: int -> int, t: seq<Byte>, maxW: int) returns (d: Drawing)
    requires Forward(advance) && maxW <= INT_MAX
    ensures maxW <= 0 ==> d == Nothing
    ensures maxW > 0 && (Width(advance, Decode(t, 0)) <= maxW || maxW == INT_MAX) ==> d == Draw(t)
    ensures 0 < maxW < Width(advance, Decode(t, 0)) && maxW < INT_MAX ==>
              if advance(ELLIPSIS) > maxW then d == Nothing else exists k: nat :: DrawsPrefix(advance, t, maxW, d, k)
  {
    ghost var k := 0;
    if maxW <= 0 { return Nothing; }
    var whole := FontWidth(advance, t);
    if whole <= maxW { return Draw(t); }
    var ellipsis := advance(ELLIPSIS);
    if ellipsis > maxW { return Nothing; }
    var end, width := 0, 0;
    ghost var cps := Decode(t, 0);
    assert cps[..0] == [] && cps[..|cps|] == cps;
    while end < |t|
      invariant At(t, end, k) && width == Width(advance, cps[..k]) && width + ellipsis <= maxW
      decreases |t| - end
    {
      Advanced(t, end, k);
      WidthSnoc(advance, cps, k);
      var cp, next := NextCodePoint(t, end);
      if advance(cp) > maxW - ellipsis - width { break; }
      width := width + advance(cp);
      end := next;
      k := k + 1;
    }
    d := Draw(t[..end] + ELLIPSIS_BYTES);
    StoppedAtLongest(advance, t, maxW, end, k);
  }

  lemma WidestPrefix(advance: int -> int, cps: seq<int>, maxW: int, k: nat)
    requires Forward(advance) && k < |cps|
    requires Width(advance, cps[..k]) + advance(ELLIPSIS) <= maxW < Width(advance, cps[..k + 1]) + advance(ELLIPSIS)
    ensures Longest(advance, cps, maxW, k)
  {
    forall j | 0 <= j <= |cps| && Width(advance, cps[..j]) + advance(ELLIPSIS) <= maxW ensures j <= k {
      if j > k { WidthMonotone(advance, cps, k + 1, j); }
    }
  }

  /** The first code point that does not fit stops the scan at the longest prefix. */
  lemma StoppedAtLongest(advance: int -> int, t: seq<Byte>, maxW: int, end: nat, k: nat)
    requires Forward(advance) && At(t, end, k) && k < |Decode(t, 0)|
    requires var cps := Decode(t, 0);
             Width(advance, cps[..k]) + advance(ELLIPSIS) <= maxW < Width(advance, cps[..k + 1]) + advance(ELLIPSIS)
    ensures DrawsPrefix(advance, t, maxW, Draw(t[..end] + ELLIPSIS_BYTES), k)
  {
    var cps := Decode(t, 0);
    WidestPrefix(advance, cps, maxW, k);
    PrefixDecodes(t, 0, k);
    assert (cps[..k] + [ELLIPSIS])[..k] == cps[..k];
  }
}
