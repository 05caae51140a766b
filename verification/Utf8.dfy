/** UTF-8 as RFC 3629, section 3, defines it, and strict decoding of whole strings. */
module Utf8 {
  import opened Basics

  const REPLACEMENT := 0xfffd
  const ELLIPSIS := 0x2026

  predicate Scalar(cp: int) { 0 <= cp <= 0x10ffff && !(0xd800 <= cp <= 0xdfff) }

  /** The bytes of one code point. */
  function Encode(cp: int): (e: seq<Byte>)
    requires Scalar(cp)
    ensures 1 <= |e| <= 4
  {
    if cp < 0x80 then [cp]
    else if cp < 0x800 then [0xc0 + cp / 64, 0x80 + cp % 64]
    else if cp < 0x10000 then [0xe0 + cp / 4096, 0x80 + cp / 64 % 64, 0x80 + cp % 64]
    else [0xf0 + cp / 262144, 0x80 + cp / 4096 % 64, 0x80 + cp / 64 % 64, 0x80 + cp % 64]
  }

  predicate EncodedAt(t: seq<Byte>, p: nat, cp: int)
    requires Scalar(cp)
  {
    p + |Encode(cp)| <= |t| && t[p..p + |Encode(cp)|] == Encode(cp)
  }

  lemma SplitTwice(cp: nat)
    ensures cp / 4096 == cp / 64 / 64 && cp / 262144 == cp / 64 / 64 / 64
  {
  }

  // ---------- Strings ----------

  type CodePoint = cp: int | Scalar(cp) witness 0

  function EncodeAll(s: seq<CodePoint>): (e: seq<Byte>)
    ensures |e| >= |s|
  {
    if s == [] then [] else Encode(s[0]) + EncodeAll(s[1..])
  }

  /** How long a sequence its first byte announces. */
  function Length(first: Byte): (n: nat)
    ensures 1 <= n <= 4
  {
    if first < 0xc0 then 1 else if first < 0xe0 then 2 else if first < 0xf0 then 3 else 4
  }

  function Bits(s: seq<Byte>, i: nat, marker: int): int
    requires i < |s|
  {
    s[i] as int - marker
  }

  /** The value of a sequence of such a length; only a proper one encodes back to itself. */
  function ValueOf(s: seq<Byte>): int
    requires 1 <= |s| <= 4
  {
    if |s| == 1 then s[0]
    else if |s| == 2 then Bits(s, 0, 0xc0) * 64 + Bits(s, 1, 0x80)
    else if |s| == 3 then (Bits(s, 0, 0xe0) * 64 + Bits(s, 1, 0x80)) * 64 + Bits(s, 2, 0x80)
    else ((Bits(s, 0, 0xf0) * 64 + Bits(s, 1, 0x80)) * 64 + Bits(s, 2, 0x80)) * 64 + Bits(s, 3, 0x80)
  }

  predicate StartsWell(s: seq<Byte>) {
    s != [] && Length(s[0]) <= |s| &&
    var head := s[..Length(s[0])]; Scalar(ValueOf(head)) && Encode(ValueOf(head)) == head
  }

  /** Strict decoding: anything but the shortest form of scalar values is refused. */
  function DecodeAll(s: seq<Byte>): Option<seq<CodePoint>> {
    if s == [] then Some([])
    else if !StartsWell(s) then None
    else
      match DecodeAll(s[Length(s[0])..])
      case None => None
      case Some(rest) => Some([ValueOf(s[..Length(s[0])])] + rest)
  }

  lemma EncodeStartsWell(cp: CodePoint, rest: seq<Byte>)
    ensures var s := Encode(cp) + rest;
            StartsWell(s) && Length(s[0]) == |Encode(cp)| && ValueOf(Encode(cp)) == cp
  {
    var e := Encode(cp);
    SplitTwice(cp);
    Sextets(cp);
    assert (e + rest)[..|e|] == e;
  }

  lemma Sextets(cp: nat)
    ensures cp == cp / 64 * 64 + cp % 64
    ensures cp == (cp / 64 / 64 * 64 + cp / 64 % 64) * 64 + cp % 64
    ensures cp == ((cp / 64 / 64 / 64 * 64 + cp / 64 / 64 % 64) * 64 + cp / 64 % 64) * 64 + cp % 64
  {
  }

  /** What was encoded decodes to itself. */
  lemma {:induction false} EncodedDecodes(s: seq<CodePoint>)
    ensures DecodeAll(EncodeAll(s)) == Some(s)
  {
    hide Encode, ValueOf, Length;
    if s != [] {
      var e := EncodeAll(s);
      EncodeStartsWell(s[0], EncodeAll(s[1..]));
      assert e[..|Encode(s[0])|] == Encode(s[0]) && e[|Encode(s[0])|..] == EncodeAll(s[1..]);
      EncodedDecodes(s[1..]);
      assert s == [s[0]] + s[1..];
    }
  }

  lemma DecodeStep(s: seq<Byte>) returns (n: nat, cp: CodePoint)
    requires s != [] && DecodeAll(s).Some?
    ensures 0 < n <= |s| && Encode(cp) == s[..n] && DecodeAll(s[n..]).Some?
    ensures DecodeAll(s).value == [cp] + DecodeAll(s[n..]).value
  {
    n, cp := Length(s[0]), ValueOf(s[..Length(s[0])]);
  }

  lemma EncodeFirst(cp: CodePoint, rest: seq<CodePoint>)
    ensures EncodeAll([cp] + rest) == Encode(cp) + EncodeAll(rest)
  {
    assert ([cp] + rest)[1..] == rest;
  }

  /** And nothing else decodes. */
  lemma {:induction false} DecodedEncodes(s: seq<Byte>)
    requires DecodeAll(s).Some?
    ensures EncodeAll(DecodeAll(s).value) == s
  {
    if s != [] {
      var n, cp := DecodeStep(s);
      DecodedEncodes(s[n..]);
      EncodeFirst(cp, DecodeAll(s[n..]).value);
      assert s == s[..n] + s[n..];
    }
  }

  predicate Ascii(s: seq<CodePoint>) { forall i | 0 <= i < |s| :: s[i] < 128 }

  lemma AsciiFirst(s: seq<CodePoint>)
    requires s != []
    ensures Ascii(s) <==> s[0] < 128 && Ascii(s[1..])
  {
    if s[0] < 128 && Ascii(s[1..]) {
      forall i | 0 <= i < |s| ensures s[i] < 128 { assert i > 0 ==> s[i] == s[1..][i - 1]; }
    }
    if Ascii(s) {
      forall i | 0 <= i < |s[1..]| ensures s[1..][i] < 128 { assert s[1..][i] == s[i + 1]; }
    }
  }

  /** A string takes one byte for each character exactly when it is ASCII. */
  lemma {:induction false} AsciiIsShortest(s: seq<CodePoint>)
    ensures Ascii(s) <==> |EncodeAll(s)| == |s|
  {
    if s != [] {
      AsciiIsShortest(s[1..]);
      AsciiFirst(s);
    }
  }

  /** Only the code point 0 has a 0 byte. */
  lemma {:induction false} ZeroBytes(s: seq<CodePoint>)
    ensures 0 in EncodeAll(s) <==> 0 in s
  {
    if s != [] {
      ZeroBytes(s[1..]);
      assert s == [s[0]] + s[1..];
      assert 0 in Encode(s[0]) <==> s[0] == 0;
    }
  }
}
