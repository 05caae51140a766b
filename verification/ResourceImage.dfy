/** Reading and writing RSCE resource images: 512-byte blocks, one for the header, one index block
    for each entry, then the payloads in order. */
module ResourceImage {
  import opened Basics
  import opened Utf8
  import opened Words

  datatype Failure =
    | NotAnImage | NotAnEntry(index: nat) | BadName | TooBig | NotADtb | NotABitmap | NoDtb

  datatype Result<T> = Ok(value: T) | Err(why: Failure)

  /** A name is a string of code points; its bytes are UTF-8. */
  type Name = seq<CodePoint>

  datatype Entry = Entry(name: Name, payload: seq<Byte>)

  const BLOCK := 512
  const NAME_OFF := 4
  const INDEX_OFF := 0x100
  const NAME_ROOM := INDEX_OFF - NAME_OFF
  const LIMIT32 := 0x1_0000_0000
  const RSCE: seq<Byte> := [0x52, 0x53, 0x43, 0x45]
  const ENTR: seq<Byte> := [0x45, 0x4e, 0x54, 0x52]

  // ---------- Python's slices ----------

  function Min(a: nat, b: nat): nat { if a < b then a else b }

  /** `d[from:to]`, bounds past the end cut. */
  function Cut(d: seq<Byte>, from: nat, to: nat): (s: seq<Byte>)
    requires from <= to
  {
    d[Min(from, |d|)..Min(to, |d|)]
  }

  /** `d[from:to] = w`: what is replaced may be shorter or longer than what replaces it. */
  function Splice(d: seq<Byte>, from: nat, to: nat, w: seq<Byte>): seq<Byte>
    requires from <= to
  {
    d[..Min(from, |d|)] + w + d[Min(to, |d|)..]
  }

  function FromLittle(s: seq<Byte>): nat { LittleAt(s, 0, |s|) }

  function Zeros(n: nat): (s: seq<Byte>)
    ensures |s| == n && forall k | 0 <= k < n :: s[k] == 0
  {
    seq(n, k => 0)
  }

  // ---------- Writing ----------

  function BlocksOf(payload: seq<Byte>): nat { (|payload| + BLOCK - 1) / BLOCK }

  function Padded(payload: seq<Byte>): (s: seq<Byte>)
    ensures |s| == BLOCK * BlocksOf(payload)
  {
    payload + Zeros(BLOCK * BlocksOf(payload) - |payload|)
  }

  /** Byte `k` of an index block: the magic, the name, the two numbers over whatever of the name
      reaches them, zeros elsewhere. */
  function IndexByte(name: Name, start: nat, size: nat, k: nat): Byte {
    var bytes := EncodeAll(name);
    if k < NAME_OFF then ENTR[k]
    else if INDEX_OFF + 4 <= k < INDEX_OFF + 8 then Little(start, 4)[k - INDEX_OFF - 4]
    else if INDEX_OFF + 8 <= k < INDEX_OFF + 12 then Little(size, 4)[k - INDEX_OFF - 8]
    else if k < NAME_OFF + |bytes| then bytes[k - NAME_OFF]
    else 0
  }

  /** A block, or more when the name takes more bytes than it has characters or runs past the end. */
  function IndexSize(name: Name): (n: nat)
    ensures n >= BLOCK
  {
    if NAME_OFF + |name| > BLOCK then NAME_OFF + |EncodeAll(name)| else BLOCK - |name| + |EncodeAll(name)|
  }

  function IndexBlock(name: Name, start: nat, size: nat): (s: seq<Byte>)
    ensures |s| == IndexSize(name)
  {
    seq(IndexSize(name), k requires 0 <= k => IndexByte(name, start, size, k))
  }

  function Indexes(es: seq<Entry>, start: nat): seq<Byte> {
    if es == [] then []
    else IndexBlock(es[0].name, start, |es[0].payload|) + Indexes(es[1..], start + BlocksOf(es[0].payload))
  }

  function Payloads(es: seq<Entry>): seq<Byte> {
    if es == [] then [] else Padded(es[0].payload) + Payloads(es[1..])
  }

  /** The start block after the payloads of `es`, the first standing at `start`. */
  function StartAfter(es: seq<Entry>, start: nat): nat {
    if es == [] then start else StartAfter(es[1..], start + BlocksOf(es[0].payload))
  }

  predicate NumbersFit(es: seq<Entry>, start: nat) {
    es == [] ||
    (start < LIMIT32 && |es[0].payload| < LIMIT32 && NumbersFit(es[1..], start + BlocksOf(es[0].payload)))
  }

  function HeaderBlock(header: seq<Byte>, count: nat): seq<Byte> {
    Splice(Cut(header, 0, BLOCK), 0x0C, 0x10, Little(count, 4))
  }

  function Write(header: seq<Byte>, es: seq<Entry>): Result<seq<Byte>> {
    if |es| >= LIMIT32 || !NumbersFit(es, 1 + |es|) then Err(TooBig)
    else Ok(HeaderBlock(header, |es|) + Indexes(es, 1 + |es|) + Payloads(es))
  }

  // ---------- Reading ----------

  /** What stands before the first NUL. */
  function UntilNul(s: seq<Byte>): (name: seq<Byte>)
  {
    if s == [] || s[0] == 0 then [] else [s[0]] + UntilNul(s[1..])
  }

  function IndexAt(blob: seq<Byte>, i: nat): seq<Byte> { Cut(blob, BLOCK * (1 + i), BLOCK * (2 + i)) }

  function NameOf(index: seq<Byte>): seq<Byte> { UntilNul(Cut(index, NAME_OFF, INDEX_OFF)) }

  function PayloadOf(blob: seq<Byte>, index: seq<Byte>): seq<Byte> {
    var start := FromLittle(Cut(index, INDEX_OFF + 4, INDEX_OFF + 8));
    var size := FromLittle(Cut(index, INDEX_OFF + 8, INDEX_OFF + 12));
    Cut(blob, BLOCK * start, BLOCK * start + size)
  }

  function ReadEntry(blob: seq<Byte>, i: nat): Result<Entry> {
    var index := IndexAt(blob, i);
    if Cut(index, 0, 4) != ENTR then Err(NotAnEntry(i))
    else
      match DecodeAll(NameOf(index))
      case None => Err(BadName)
      case Some(name) => Ok(Entry(name, PayloadOf(blob, index)))
  }

  /** The first failure, or everything read. */
  function Then(first: Result<Entry>, rest: Result<seq<Entry>>): Result<seq<Entry>> {
    if first.Err? then Err(first.why) else if rest.Err? then rest else Ok([first.value] + rest.value)
  }

  function ReadFrom(blob: seq<Byte>, i: nat, count: nat): Result<seq<Entry>>
    decreases count - i
  {
    if i >= count then Ok([]) else Then(ReadEntry(blob, i), ReadFrom(blob, i + 1, count))
  }

  function Read(blob: seq<Byte>): Result<seq<Entry>> {
    if Cut(blob, 0, 4) != RSCE then Err(NotAnImage) else ReadFrom(blob, 0, FromLittle(Cut(blob, 0x0C, 0x10)))
  }

  // ---------- Where the parts of an image stand ----------

  lemma HeldIsCut(d: seq<Byte>, p: nat, w: seq<Byte>)
    requires Holds(d, p, w)
    ensures Cut(d, p, p + |w|) == w
  {
    forall k | 0 <= k < |w| ensures Cut(d, p, p + |w|)[k] == w[k] { assert d[p + k] == w[k]; }
  }

  lemma ConcatHolds(a: seq<Byte>, b: seq<Byte>, c: seq<Byte>)
    ensures Holds(a + b + c, |a|, b) && Holds(a + b + c, |a| + |b|, c)
  {
  }

  /** A name that the index block can carry: no NUL in it and room for all its bytes. */
  predicate Plain(name: Name) { |EncodeAll(name)| <= NAME_ROOM && 0 !in name }

  predicate AllPlain(es: seq<Entry>) { forall e | e in es :: Plain(e.name) }

  predicate AllAscii(es: seq<Entry>) { forall e | e in es :: Ascii(e.name) }

  /** The index blocks keep their size. */
  predicate Aligned(es: seq<Entry>) { forall e | e in es :: IndexSize(e.name) == BLOCK }

  lemma PlainIsAligned(es: seq<Entry>)
    requires AllPlain(es) && AllAscii(es)
    ensures Aligned(es)
  {
    forall e | e in es ensures IndexSize(e.name) == BLOCK { AsciiIsShortest(e.name); }
  }

  lemma SpliceInside(d: seq<Byte>, from: nat, w: seq<Byte>)
    requires from + |w| <= |d|
    ensures var r := Splice(d, from, from + |w|, w);
            && |r| == |d|
            && forall k | 0 <= k < |d| :: r[k] == if from <= k < from + |w| then w[k - from] else d[k]
  {
  }

  /** The bytes of an index block up to the numbers, and, after a plain name, beyond them. */
  lemma IndexBytes(name: Name, start: nat, size: nat)
    ensures var b, bytes := IndexBlock(name, start, size), EncodeAll(name);
            && Holds(b, 0, ENTR)
            && (forall k | NAME_OFF <= k < INDEX_OFF ::
                  b[k] == if k < NAME_OFF + |bytes| then bytes[k - NAME_OFF] else 0)
            && Holds(b, INDEX_OFF + 4, Little(start, 4)) && Holds(b, INDEX_OFF + 8, Little(size, 4))
            && (|bytes| <= NAME_ROOM ==> forall k | BLOCK <= k < |b| :: b[k] == 0)
  {
    var b := IndexBlock(name, start, size);
    forall k | 0 <= k < 4 ensures b[0 + k] == ENTR[k] { }
    forall k | 0 <= k < 4 ensures b[INDEX_OFF + 4 + k] == Little(start, 4)[k] {
      assert b[INDEX_OFF + 4 + k] == IndexByte(name, start, size, INDEX_OFF + 4 + k);
    }
    forall k | 0 <= k < 4 ensures b[INDEX_OFF + 8 + k] == Little(size, 4)[k] {
      assert b[INDEX_OFF + 8 + k] == IndexByte(name, start, size, INDEX_OFF + 8 + k);
    }
  }

  lemma {:induction false} UntilNulOfPadded(name: seq<Byte>, s: seq<Byte>)
    requires |name| <= |s| && 0 !in name
    requires forall k | 0 <= k < |s| :: s[k] == if k < |name| then name[k] else 0
    ensures UntilNul(s) == name
  {
    if name != [] {
      assert name[0] in name;
      UntilNulOfPadded(name[1..], s[1..]);
      assert name == [name[0]] + name[1..];
    }
  }

  lemma {:induction false} UntilNulIsPlain(s: seq<Byte>)
    ensures |UntilNul(s)| <= |s| && 0 !in UntilNul(s)
  {
    if s != [] && s[0] != 0 { UntilNulIsPlain(s[1..]); }
  }

  /** The first block of an index block, which is all a reader looks at. */
  function Head(name: Name, start: nat, size: nat): (b: seq<Byte>)
    ensures |b| == BLOCK
  {
    IndexBlock(name, start, size)[..BLOCK]
  }

  lemma HeadBytes(name: Name, start: nat, size: nat)
    ensures var b, bytes := Head(name, start, size), EncodeAll(name);
            && Holds(b, 0, ENTR)
            && (forall k | NAME_OFF <= k < INDEX_OFF ::
                  b[k] == if k < NAME_OFF + |bytes| then bytes[k - NAME_OFF] else 0)
            && Holds(b, INDEX_OFF + 4, Little(start, 4)) && Holds(b, INDEX_OFF + 8, Little(size, 4))
  {
    IndexBytes(name, start, size);
    var all, b := IndexBlock(name, start, size), Head(name, start, size);
    assert forall k | 0 <= k < BLOCK :: b[k] == all[k];
  }

  lemma HeadMagic(name: Name, start: nat, size: nat)
    ensures Cut(Head(name, start, size), 0, 4) == ENTR
  {
    HeadBytes(name, start, size);
    HeldIsCut(Head(name, start, size), 0, ENTR);
  }

  lemma HeadNames(name: Name, start: nat, size: nat)
    requires Plain(name)
    ensures NameOf(Head(name, start, size)) == EncodeAll(name) && DecodeAll(EncodeAll(name)) == Some(name)
  {
    HeadBytes(name, start, size);
    ZeroBytes(name);
    EncodedDecodes(name);
    UntilNulOfPadded(EncodeAll(name), Cut(Head(name, start, size), NAME_OFF, INDEX_OFF));
  }

  lemma LittleCut(d: seq<Byte>, p: nat, v: nat)
    requires v < LIMIT32 && Holds(d, p, Little(v, 4))
    ensures FromLittle(Cut(d, p, p + 4)) == v
  {
    HeldIsCut(d, p, Little(v, 4));
    Pow256Values();
    LittleReadsBack(Cut(d, p, p + 4), 0, v, 4);
  }

  lemma HeadPayload(blob: seq<Byte>, name: Name, start: nat, size: nat)
    requires start < LIMIT32 && size < LIMIT32
    ensures PayloadOf(blob, Head(name, start, size)) == Cut(blob, BLOCK * start, BLOCK * start + size)
  {
    HeadBytes(name, start, size);
    LittleCut(Head(name, start, size), INDEX_OFF + 4, start);
    LittleCut(Head(name, start, size), INDEX_OFF + 8, size);
  }

  lemma EntryFrom(blob: seq<Byte>, i: nat, b: seq<Byte>, name: Name, payload: seq<Byte>)
    requires |b| == BLOCK && Holds(blob, BLOCK * (1 + i), b)
    requires Cut(b, 0, 4) == ENTR && DecodeAll(NameOf(b)) == Some(name) && PayloadOf(blob, b) == payload
    ensures ReadEntry(blob, i) == Ok(Entry(name, payload))
  {
    HeldIsCut(blob, BLOCK * (1 + i), b);
  }

  /** What reading an entry gives, from the first block of its index: its name, and the bytes where
      its payload should be. */
  lemma EntryReads(blob: seq<Byte>, i: nat, e: Entry, start: nat)
    requires Plain(e.name) && start < LIMIT32 && |e.payload| < LIMIT32
    requires Holds(blob, BLOCK * (1 + i), Head(e.name, start, |e.payload|))
    ensures ReadEntry(blob, i) == Ok(Entry(e.name, Cut(blob, BLOCK * start, BLOCK * start + |e.payload|)))
  {
    HeadMagic(e.name, start, |e.payload|);
    HeadNames(e.name, start, |e.payload|);
    HeadPayload(blob, e.name, start, |e.payload|);
    EntryFrom(blob, i, Head(e.name, start, |e.payload|), e.name, Cut(blob, BLOCK * start, BLOCK * start + |e.payload|));
  }

  /** One entry reads back from its index block and its payload. */
  lemma EntryReadsBack(blob: seq<Byte>, i: nat, e: Entry, start: nat)
    requires Plain(e.name) && start < LIMIT32 && |e.payload| < LIMIT32
    requires Holds(blob, BLOCK * (1 + i), Head(e.name, start, |e.payload|))
    requires Holds(blob, BLOCK * start, e.payload)
    ensures ReadEntry(blob, i) == Ok(e)
  {
    EntryReads(blob, i, e, start);
    HeldIsCut(blob, BLOCK * start, e.payload);
  }

  ghost predicate Gives(blob: seq<Byte>, es: seq<Entry>, k: nat)
    requires k < |es|
  {
    ReadEntry(blob, k) == Ok(es[k])
  }

  lemma ReadFromStep(blob: seq<Byte>, i: nat, es: seq<Entry>)
    requires i < |es| && Gives(blob, es, i) && ReadFrom(blob, i + 1, |es|) == Ok(es[i + 1..])
    ensures ReadFrom(blob, i, |es|) == Ok(es[i..])
  {
    assert [es[i]] + es[i + 1..] == es[i..];
  }

  ghost predicate AllGiven(blob: seq<Byte>, es: seq<Entry>) { forall k: nat | k < |es| :: Gives(blob, es, k) }

  lemma GivenAt(blob: seq<Byte>, es: seq<Entry>, k: nat)
    requires AllGiven(blob, es) && k < |es|
    ensures Gives(blob, es, k)
  {
  }

  lemma {:induction false} ReadFromAll(blob: seq<Byte>, i: nat, es: seq<Entry>, count: nat, rest: seq<Entry>)
    requires i <= count == |es| && AllGiven(blob, es) && rest == es[i..]
    ensures ReadFrom(blob, i, count) == Ok(rest)
    decreases count - i
  {
    if i < count {
      ReadFromAll(blob, i + 1, es, count, es[i + 1..]);
      GivenAt(blob, es, i);
      ReadFromStep(blob, i, es);
    }
  }

  lemma IndexesSplit(d: seq<Byte>, p: nat, es: seq<Entry>, start: nat)
    requires es != [] && Holds(d, p, Indexes(es, start))
    ensures Holds(d, p, IndexBlock(es[0].name, start, |es[0].payload|))
    ensures Holds(d, p + IndexSize(es[0].name), Indexes(es[1..], start + BlocksOf(es[0].payload)))
  {
    HoldsSplit(d, p, IndexBlock(es[0].name, start, |es[0].payload|), Indexes(es[1..], start + BlocksOf(es[0].payload)));
  }

  lemma PaddedHolds(d: seq<Byte>, p: nat, payload: seq<Byte>)
    requires Holds(d, p, Padded(payload))
    ensures Holds(d, p, payload)
  {
    HoldsSplit(d, p, payload, Zeros(BLOCK * BlocksOf(payload) - |payload|));
  }

  lemma PayloadsSplit(d: seq<Byte>, p: nat, es: seq<Entry>)
    requires es != [] && Holds(d, p, Payloads(es))
    ensures Holds(d, p, es[0].payload) && Holds(d, p + |Padded(es[0].payload)|, Payloads(es[1..]))
  {
    HoldsSplit(d, p, Padded(es[0].payload), Payloads(es[1..]));
    PaddedHolds(d, p, es[0].payload);
  }

  /** While the index blocks before it keep their size, the index block of entry k stands at block k
      after `p`, and names the block where its payload should start. */
  lemma {:induction false} IndexesApart(d: seq<Byte>, p: nat, es: seq<Entry>, start: nat, k: nat)
    requires k < |es| && Holds(d, p, Indexes(es, start)) && Aligned(es[..k])
    ensures Holds(d, p + BLOCK * k, IndexBlock(es[k].name, StartAfter(es[..k], start), |es[k].payload|))
    decreases k
  {
    IndexesSplit(d, p, es, start);
    if k > 0 {
      assert es[..k][0] in es[..k];
      assert es[..k][1..] == es[1..][..k - 1];
      IndexesApart(d, p + BLOCK, es[1..], start + BlocksOf(es[0].payload), k - 1);
    }
  }

  lemma HeadHeld(d: seq<Byte>, p: nat, name: Name, start: nat, size: nat)
    requires Holds(d, p, IndexBlock(name, start, size))
    ensures Holds(d, p, Head(name, start, size))
  {
    var all := IndexBlock(name, start, size);
    assert all == all[..BLOCK] + all[BLOCK..];
    HoldsSplit(d, p, all[..BLOCK], all[BLOCK..]);
  }

  lemma AlignedPrefix(es: seq<Entry>, k: nat)
    requires k <= |es| && Aligned(es)
    ensures Aligned(es[..k])
  {
    forall e | e in es[..k] ensures IndexSize(e.name) == BLOCK { assert e in es; }
  }

  lemma {:induction false} NumbersFitAt(es: seq<Entry>, start: nat, k: nat)
    requires k < |es| && NumbersFit(es, start)
    ensures StartAfter(es[..k], start) < LIMIT32 && |es[k].payload| < LIMIT32
    decreases k
  {
    if k > 0 {
      assert es[..k][1..] == es[1..][..k - 1];
      NumbersFitAt(es[1..], start + BlocksOf(es[0].payload), k - 1);
    }
  }

  /** Block aligned, in order, side by side: the payload of entry i starts on a block, holds its
      bytes, and ends at or before the block where the next one starts. */
  lemma {:induction false} PayloadsApart(d: seq<Byte>, es: seq<Entry>, start: nat, i: nat)
    requires i < |es| && Holds(d, BLOCK * start, Payloads(es))
    ensures start <= StartAfter(es[..i], start)
    ensures Holds(d, BLOCK * StartAfter(es[..i], start), es[i].payload)
    ensures BLOCK * StartAfter(es[..i], start) + |es[i].payload| <= BLOCK * StartAfter(es[..i + 1], start)
    ensures BLOCK * StartAfter(es[..i + 1], start) < BLOCK * StartAfter(es[..i], start) + |es[i].payload| + BLOCK
    decreases i
  {
    PayloadsSplit(d, BLOCK * start, es);
    assert es[..i + 1][1..] == es[1..][..i];
    if i > 0 {
      assert es[..i][1..] == es[1..][..i - 1];
      PayloadsApart(d, es[1..], start + BlocksOf(es[0].payload), i - 1);
    }
  }

  /** Index blocks from block 1 and payloads from `start` on read back as their entries. */
  lemma EntriesReadBack(blob: seq<Byte>, es: seq<Entry>, start: nat)
    requires AllPlain(es) && Aligned(es) && NumbersFit(es, start)
    requires Holds(blob, BLOCK, Indexes(es, start)) && Holds(blob, BLOCK * start, Payloads(es))
    ensures ReadFrom(blob, 0, |es|) == Ok(es)
  {
    forall k: nat | k < |es| ensures Gives(blob, es, k) {
      assert es[k] in es;
      AlignedPrefix(es, k);
      IndexesApart(blob, BLOCK, es, start, k);
      HeadHeld(blob, BLOCK * (1 + k), es[k].name, StartAfter(es[..k], start), |es[k].payload|);
      NumbersFitAt(es, start, k);
      PayloadsApart(blob, es, start, k);
      EntryReadsBack(blob, k, es[k], StartAfter(es[..k], start));
    }
    assert es[0..] == es;
    ReadFromAll(blob, 0, es, |es|, es);
  }

  lemma {:induction false} IndexesSize(es: seq<Entry>, start: nat)
    requires Aligned(es)
    ensures |Indexes(es, start)| == BLOCK * |es|
  {
    if es != [] {
      assert es[0] in es;
      IndexesSize(es[1..], start + BlocksOf(es[0].payload));
    }
  }

  lemma {:induction false} PayloadsSize(es: seq<Entry>, start: nat)
    ensures BLOCK * StartAfter(es, start) == BLOCK * start + |Payloads(es)|
  {
    if es != [] { PayloadsSize(es[1..], start + BlocksOf(es[0].payload)); }
  }

  /** The header block is the old one but for its count. */
  lemma HeaderKept(header: seq<Byte>, count: nat)
    requires |header| >= BLOCK
    ensures var b := HeaderBlock(header, count);
            && |b| == BLOCK && b[..0x0C] == header[..0x0C] && b[0x10..] == header[0x10..BLOCK]
            && Holds(b, 0x0C, Little(count, 4))
  {
    SpliceInside(Cut(header, 0, BLOCK), 0x0C, Little(count, 4));
  }

  lemma ReadNameIsPlain(blob: seq<Byte>, i: nat)
    requires ReadEntry(blob, i).Ok?
    ensures Plain(ReadEntry(blob, i).value.name)
  {
    var bytes := NameOf(IndexAt(blob, i));
    UntilNulIsPlain(Cut(IndexAt(blob, i), NAME_OFF, INDEX_OFF));
    DecodedEncodes(bytes);
    ZeroBytes(DecodeAll(bytes).value);
  }

  lemma {:induction false} ReadNamesArePlain(blob: seq<Byte>, i: nat, count: nat)
    requires ReadFrom(blob, i, count).Ok?
    ensures AllPlain(ReadFrom(blob, i, count).value)
    decreases count - i
  {
    if i < count {
      ReadNameIsPlain(blob, i);
      ReadNamesArePlain(blob, i + 1, count);
    }
  }

  // ---------- The theorems ----------

  /** Where everything stands in an image whose index blocks kept their size: the index blocks
      from block 1, the payloads from block 1 + count, and the image ends where they end. */
  lemma ImageLayout(header: seq<Byte>, es: seq<Entry>)
    requires |header| >= BLOCK && Write(header, es).Ok? && Aligned(es)
    ensures var img := Write(header, es).value;
            && |img| == BLOCK * StartAfter(es, 1 + |es|)
            && Cut(img, 0, BLOCK) == HeaderBlock(header, |es|)
            && Holds(img, BLOCK, Indexes(es, 1 + |es|)) && Holds(img, BLOCK * (1 + |es|), Payloads(es))
  {
    hide Indexes, Payloads, HeaderBlock, NumbersFit;
    HeaderKept(header, |es|);
    IndexesSize(es, 1 + |es|);
    PayloadsSize(es, 1 + |es|);
    ConcatHolds(HeaderBlock(header, |es|), Indexes(es, 1 + |es|), Payloads(es));
  }

  /** The header of an image: a resource image of as many entries as were written, and every other
      byte of the first block as it was given. */
  lemma ImageHeader(header: seq<Byte>, es: seq<Entry>)
    requires |header| >= BLOCK && Write(header, es).Ok?
    ensures var img := Write(header, es).value;
            && |img| >= BLOCK && img[..0x0C] == header[..0x0C] && img[0x10..BLOCK] == header[0x10..BLOCK]
            && FromLittle(Cut(img, 0x0C, 0x10)) == |es|
  {
    var b, img := HeaderBlock(header, |es|), Write(header, es).value;
    HeaderKept(header, |es|);
    assert img[..BLOCK] == b;
    assert forall k | 0 <= k < BLOCK :: img[k] == b[k];
    assert img[..0x0C] == b[..0x0C] && img[0x10..BLOCK] == b[0x10..];
    LittleCut(img, 0x0C, |es|);
  }

  lemma PlainReadsBack(header: seq<Byte>, es: seq<Entry>)
    requires |header| >= BLOCK && header[..4] == RSCE && Write(header, es).Ok? && AllPlain(es) && AllAscii(es)
    ensures Read(Write(header, es).value) == Ok(es)
  {
    var img := Write(header, es).value;
    PlainIsAligned(es);
    ImageLayout(header, es);
    ImageHeader(header, es);
    EntriesReadBack(img, es, 1 + |es|);
    assert Cut(img, 0, 4) == img[..0x0C][..4] == header[..0x0C][..4] == header[..4];
  }

  // ---------- Names beyond ASCII ----------

  predicate Blank(payload: seq<Byte>) { forall k | 0 <= k < |payload| :: payload[k] == 0 }

  predicate AllBlank(es: seq<Entry>) { forall e | e in es :: Blank(e.payload) }

  /** All names but the last are ASCII and every payload is nothing but zeros. */
  predicate LastAloneIsForeign(es: seq<Entry>) {
    es != [] && AllAscii(es[..|es| - 1]) && AllBlank(es)
  }

  predicate Survives(es: seq<Entry>) {
    AllPlain(es) && (AllAscii(es) || LastAloneIsForeign(es))
  }

  lemma PrefixIsAligned(es: seq<Entry>, k: nat)
    requires k <= |es| && AllPlain(es) && AllAscii(es[..k])
    ensures Aligned(es[..k])
  {
    forall e | e in es[..k] ensures Plain(e.name) { assert e in es; }
    PlainIsAligned(es[..k]);
  }

  /** `img` is a header block, the index blocks and the payloads, with `start` the first payload's block. */
  ghost predicate Laid(img: seq<Byte>, es: seq<Entry>, start: nat) {
    && start == 1 + |es| && NumbersFit(es, start)
    && |img| == BLOCK + |Indexes(es, start)| + |Payloads(es)|
    && Holds(img, BLOCK, Indexes(es, start)) && Holds(img, BLOCK + |Indexes(es, start)|, Payloads(es))
  }

  lemma WriteLays(header: seq<Byte>, es: seq<Entry>)
    requires |header| >= BLOCK && Write(header, es).Ok?
    ensures Laid(Write(header, es).value, es, 1 + |es|)
  {
    HeaderKept(header, |es|);
    ConcatHolds(HeaderBlock(header, |es|), Indexes(es, 1 + |es|), Payloads(es));
  }

  /** Up to the first foreign name every index block stands where a reader looks for it. */
  lemma IndexStands(img: seq<Byte>, es: seq<Entry>, start: nat, k: nat)
    requires Laid(img, es, start) && k < |es| && AllPlain(es) && AllAscii(es[..k])
    ensures Holds(img, BLOCK * (1 + k), IndexBlock(es[k].name, StartAfter(es[..k], start), |es[k].payload|))
  {
    PrefixIsAligned(es, k);
    IndexesApart(img, BLOCK, es, start, k);
  }

  lemma EntryStands(img: seq<Byte>, es: seq<Entry>, start: nat, k: nat)
    requires Laid(img, es, start) && k < |es| && AllPlain(es) && AllAscii(es[..k])
    ensures var at, e := BLOCK * StartAfter(es[..k], start), es[k];
            ReadEntry(img, k) == Ok(Entry(e.name, Cut(img, at, at + |e.payload|)))
  {
    IndexStands(img, es, start, k);
    HeadHeld(img, BLOCK * (1 + k), es[k].name, StartAfter(es[..k], start), |es[k].payload|);
    NumbersFitAt(es, start, k);
    assert es[k] in es;
    EntryReads(img, k, es[k], StartAfter(es[..k], start));
  }

  lemma {:induction false} IndexesBut(es: seq<Entry>, start: nat)
    requires es != [] && Aligned(es[..|es| - 1])
    ensures |Indexes(es, start)| == BLOCK * (|es| - 1) + IndexSize(es[|es| - 1].name)
  {
    if |es| > 1 {
      assert es[0] == es[..|es| - 1][0] && es[0] in es[..|es| - 1];
      assert es[1..][..|es[1..]| - 1] == es[..|es| - 1][1..];
      IndexesBut(es[1..], start + BlocksOf(es[0].payload));
    }
  }

  /** Behind a foreign last name everything from block 1 + count on has moved back, after zeros. */
  lemma Moved(img: seq<Byte>, es: seq<Entry>, start: nat, base: nat) returns (shift: nat)
    requires Laid(img, es, start) && base == BLOCK * start
    requires es != [] && AllPlain(es) && AllAscii(es[..|es| - 1]) && !Ascii(es[|es| - 1].name)
    ensures shift > 0 && |img| == base + shift + |Payloads(es)|
    ensures Holds(img, base, Zeros(shift)) && Holds(img, base + shift, Payloads(es))
  {
    var n := |es| - 1;
    var last := es[n];
    shift := IndexSize(last.name) - BLOCK;
    assert last in es;
    ForeignIsLonger(last.name);
    PrefixIsAligned(es, n);
    IndexesBut(es, start);
    IndexStands(img, es, start, n);
    TailIsBlank(img, BLOCK * (1 + n), last.name, StartAfter(es[..n], start), |last.payload|);
  }

  lemma ForeignIsLonger(name: Name)
    requires Plain(name) && !Ascii(name)
    ensures IndexSize(name) > BLOCK
  {
    AsciiIsShortest(name);
  }

  lemma TailIsBlank(d: seq<Byte>, p: nat, name: Name, start: nat, size: nat)
    requires Plain(name) && Holds(d, p, IndexBlock(name, start, size))
    ensures Holds(d, p + BLOCK, Zeros(IndexSize(name) - BLOCK))
  {
    var b := IndexBlock(name, start, size);
    IndexBytes(name, start, size);
    assert b == b[..BLOCK] + b[BLOCK..] && b[BLOCK..] == Zeros(IndexSize(name) - BLOCK);
    HoldsSplit(d, p, b[..BLOCK], b[BLOCK..]);
  }

  lemma {:induction false} StartShift(es: seq<Entry>, start: nat)
    ensures StartAfter(es, start) == start + StartAfter(es, 0)
  {
    if es != [] {
      StartShift(es[1..], start + BlocksOf(es[0].payload));
      StartShift(es[1..], BlocksOf(es[0].payload));
    }
  }

  /** How far into the payloads that of entry k stands. */
  function Offset(es: seq<Entry>, k: nat): nat
    requires k <= |es|
  {
    BLOCK * StartAfter(es[..k], 0)
  }

  /** A byte of the payloads is padding or belongs to one of them. */
  lemma {:induction false} PayloadByte(es: seq<Entry>, x: nat) returns (k: nat, at: nat)
    requires x < |Payloads(es)| && Payloads(es)[x] != 0
    ensures k < |es| && at == Offset(es, k)
    ensures at <= x < at + |es[k].payload| && Payloads(es)[x] == es[k].payload[x - at]
  {
    var own := Padded(es[0].payload);
    if x < |own| {
      k, at := 0, 0;
    } else {
      var j, before := PayloadByte(es[1..], x - |own|);
      k, at := j + 1, |own| + before;
      assert es[..k][1..] == es[1..][..j];
      StartShift(es[1..][..j], BlocksOf(es[0].payload));
    }
  }

  /** The payloads of `es` as they would stand one after the other from `base`. */
  ghost predicate ReadsAt(d: seq<Byte>, base: nat, es: seq<Entry>) {
    forall k: nat | k < |es| :: Shown(d, base, Offset(es, k), es[k].payload)
  }

  /** What a reader gets at `base + at` is `w`. */
  ghost predicate Shown(d: seq<Byte>, base: nat, at: nat, w: seq<Byte>) {
    Cut(d, base + at, base + at + |w|) == w
  }

  lemma ShownByte(d: seq<Byte>, base: nat, at: nat, w: seq<Byte>, j: nat)
    requires Shown(d, base, at, w) && j < |w|
    ensures base + at + j < |d| && d[base + at + j] == w[j]
  {
    var c := Cut(d, base + at, base + at + |w|);
    assert |c| == |w| && c[j] == w[j];
  }

  lemma ReadsByte(d: seq<Byte>, base: nat, es: seq<Entry>, x: nat)
    requires ReadsAt(d, base, es) && x < |Payloads(es)|
    ensures Payloads(es)[x] != 0 ==> base + x < |d| && d[base + x] == Payloads(es)[x]
  {
    if Payloads(es)[x] != 0 {
      var k, at := PayloadByte(es, x);
      ShownByte(d, base, at, es[k].payload, x - at);
    }
  }

  /** Payloads that read the same from some zeros further back are zeros. */
  lemma {:induction false} MovedIsBlank(d: seq<Byte>, base: nat, shift: nat, es: seq<Entry>, x: nat)
    requires shift > 0 && Holds(d, base, Zeros(shift)) && Holds(d, base + shift, Payloads(es))
    requires ReadsAt(d, base, es) && x < |Payloads(es)|
    ensures Payloads(es)[x] == 0
    decreases x
  {
    ReadsByte(d, base, es, x);
    if x < shift {
      assert d[base + x] == Zeros(shift)[x];
    } else {
      MovedIsBlank(d, base, shift, es, x - shift);
      assert d[base + shift + (x - shift)] == Payloads(es)[x - shift];
    }
  }

  lemma BlankPayloads(es: seq<Entry>)
    requires forall x | 0 <= x < |Payloads(es)| :: Payloads(es)[x] == 0
    ensures AllBlank(es)
  {
    forall e | e in es ensures Blank(e.payload) {
      var i :| 0 <= i < |es| && es[i] == e;
      PayloadsApart(Payloads(es), es, 0, i);
      var at := BLOCK * StartAfter(es[..i], 0);
      forall k | 0 <= k < |e.payload| ensures e.payload[k] == 0 { assert Payloads(es)[at + k] == e.payload[k]; }
    }
  }

  lemma BlankFromMoved(d: seq<Byte>, base: nat, shift: nat, es: seq<Entry>)
    requires shift > 0 && Holds(d, base, Zeros(shift)) && Holds(d, base + shift, Payloads(es)) && ReadsAt(d, base, es)
    ensures AllBlank(es)
  {
    forall x | 0 <= x < |Payloads(es)| ensures Payloads(es)[x] == 0 { MovedIsBlank(d, base, shift, es, x); }
    BlankPayloads(es);
  }

  lemma PayloadsBlank(es: seq<Entry>)
    requires AllBlank(es)
    ensures Payloads(es) == Zeros(|Payloads(es)|)
  {
    forall x | 0 <= x < |Payloads(es)| ensures Payloads(es)[x] == 0 {
      if Payloads(es)[x] != 0 { var k, at := PayloadByte(es, x); }
    }
  }

  lemma ReadFromOpens(blob: seq<Byte>, i: nat, count: nat, es: seq<Entry>)
    requires i < count && ReadFrom(blob, i, count) == Ok(es)
    ensures es != [] && ReadEntry(blob, i) == Ok(es[0]) && ReadFrom(blob, i + 1, count) == Ok(es[1..])
  {
  }

  lemma {:induction false} ReadGivesFrom(blob: seq<Byte>, es: seq<Entry>, i: nat, k: nat)
    requires i <= k < |es| && ReadFrom(blob, i, |es|) == Ok(es[i..])
    ensures Gives(blob, es, k)
    decreases k - i
  {
    ReadFromOpens(blob, i, |es|, es[i..]);
    if i < k { ReadGivesFrom(blob, es, i + 1, k); }
  }

  lemma ReadGives(blob: seq<Byte>, es: seq<Entry>)
    requires ReadFrom(blob, 0, |es|) == Ok(es)
    ensures AllGiven(blob, es)
  {
    assert es[0..] == es;
    forall k: nat | k < |es| ensures Gives(blob, es, k) { ReadGivesFrom(blob, es, 0, k); }
  }

  lemma {:induction false} FirstForeign(es: seq<Entry>) returns (i: nat)
    requires !AllAscii(es)
    ensures i < |es| && !Ascii(es[i].name) && AllAscii(es[..i])
  {
    var n := |es| - 1;
    if AllAscii(es[..n]) {
      i := n;
      forall e | e in es && e != es[n] ensures e in es[..n] { }
    } else {
      i := FirstForeign(es[..n]);
      assert es[..n][..i] == es[..i];
    }
  }

  /** After a foreign name the next index block is not where the reader looks. */
  lemma NextIndexIsLost(img: seq<Byte>, es: seq<Entry>, start: nat, i: nat)
    requires Laid(img, es, start) && AllPlain(es)
    requires i + 1 < |es| && !Ascii(es[i].name) && AllAscii(es[..i])
    ensures ReadEntry(img, i + 1).Err?
  {
    assert es[i] in es;
    IndexStands(img, es, start, i);
    ForeignIsLonger(es[i].name);
    TailIsBlank(img, BLOCK * (1 + i), es[i].name, StartAfter(es[..i], start), |es[i].payload|);
    ZeroIsNoEntry(img, i + 1, IndexSize(es[i].name) - BLOCK);
  }

  lemma ZeroIsNoEntry(blob: seq<Byte>, i: nat, n: nat)
    requires n > 0 && Holds(blob, BLOCK * (1 + i), Zeros(n))
    ensures ReadEntry(blob, i).Err?
  {
    assert blob[BLOCK * (1 + i) + 0] == Zeros(n)[0];
    assert IndexAt(blob, i)[0] == 0;
    assert Cut(IndexAt(blob, i), 0, 4)[0] == 0;
  }

  /** Whatever reads back survives. */
  lemma ReadBackSurvives(img: seq<Byte>, es: seq<Entry>, start: nat)
    requires Laid(img, es, start) && AllPlain(es) && AllGiven(img, es)
    ensures Survives(es)
  {
    if !AllAscii(es) {
      var i := FirstForeign(es);
      if i + 1 < |es| {
        GivenAt(img, es, i + 1);
        NextIndexIsLost(img, es, start, i);
      } else {
        PayloadsReadHere(img, es, start);
        ForeignLastIsBlank(img, es, start, BLOCK * start);
      }
    }
  }

  lemma ForeignLastIsBlank(img: seq<Byte>, es: seq<Entry>, start: nat, base: nat)
    requires Laid(img, es, start) && base == BLOCK * start && ReadsAt(img, base, es)
    requires es != [] && AllPlain(es) && AllAscii(es[..|es| - 1]) && !Ascii(es[|es| - 1].name)
    ensures AllBlank(es)
  {
    var shift := Moved(img, es, start, base);
    BlankFromMoved(img, base, shift, es);
  }

  lemma AsciiBefore(es: seq<Entry>, k: nat)
    requires k < |es| && AllAscii(es[..|es| - 1])
    ensures AllAscii(es[..k])
  {
    forall e | e in es[..k] ensures Ascii(e.name) { assert e in es[..|es| - 1]; }
  }

  lemma PayloadReadsHere(img: seq<Byte>, es: seq<Entry>, start: nat, k: nat)
    requires Laid(img, es, start) && k < |es| && Gives(img, es, k)
    requires AllPlain(es) && AllAscii(es[..|es| - 1])
    ensures Shown(img, BLOCK * start, Offset(es, k), es[k].payload)
  {
    AsciiBefore(es, k);
    EntryStands(img, es, start, k);
    StartShift(es[..k], start);
  }

  lemma PayloadsReadHere(img: seq<Byte>, es: seq<Entry>, start: nat)
    requires Laid(img, es, start) && AllGiven(img, es)
    requires es != [] && AllPlain(es) && AllAscii(es[..|es| - 1])
    ensures ReadsAt(img, BLOCK * start, es)
  {
    forall k: nat | k < |es| ensures Shown(img, BLOCK * start, Offset(es, k), es[k].payload) {
      GivenAt(img, es, k);
      PayloadReadsHere(img, es, start, k);
    }
  }

  lemma AllAsciiSnoc(es: seq<Entry>)
    requires es != []
    ensures AllAscii(es) <==> AllAscii(es[..|es| - 1]) && Ascii(es[|es| - 1].name)
  {
    var n := |es| - 1;
    assert es == es[..n] + [es[n]];
    assert forall e :: e in es <==> e in es[..n] || e == es[n];
  }

  ghost predicate BlankFrom(d: seq<Byte>, base: nat) { base <= |d| && forall x | base <= x < |d| :: d[x] == 0 }

  /** From block 1 + count on there is nothing but zeros. */
  lemma BlankTail(d: seq<Byte>, base: nat, shift: nat, es: seq<Entry>)
    requires AllBlank(es) && |d| == base + shift + |Payloads(es)|
    requires Holds(d, base, Zeros(shift)) && Holds(d, base + shift, Payloads(es))
    ensures BlankFrom(d, base)
  {
    PayloadsBlank(es);
    forall x | base <= x < |d| ensures d[x] == 0 {
      if x < base + shift {
        assert d[base + (x - base)] == Zeros(shift)[x - base];
      } else {
        assert d[base + shift + (x - base - shift)] == Payloads(es)[x - base - shift];
      }
    }
  }

  lemma CutOfZeros(d: seq<Byte>, base: nat, p: nat, w: seq<Byte>)
    requires base <= p && p + |w| <= |d| && BlankFrom(d, base) && Blank(w)
    ensures Cut(d, p, p + |w|) == w
  {
  }

  lemma PayloadEnds(es: seq<Entry>, start: nat, k: nat)
    requires k < |es|
    ensures start <= StartAfter(es[..k], start)
    ensures BLOCK * StartAfter(es[..k], start) + |es[k].payload| <= BLOCK * start + |Payloads(es)|
  {
    PayloadsApart(Payloads(es), es, 0, k);
    StartShift(es[..k], start);
  }

  /** Zeros read back through a foreign last name. */
  lemma BlankReadsBack(img: seq<Byte>, es: seq<Entry>, start: nat)
    requires Laid(img, es, start) && AllPlain(es) && LastAloneIsForeign(es) && !AllAscii(es)
    ensures ReadFrom(img, 0, |es|) == Ok(es)
  {
    AllAsciiSnoc(es);
    var shift := Moved(img, es, start, BLOCK * start);
    BlankTail(img, BLOCK * start, shift, es);
    forall k: nat | k < |es| ensures Gives(img, es, k) { BlankEntryReads(img, es, start, k); }
    assert es[0..] == es;
    ReadFromAll(img, 0, es, |es|, es);
  }

  lemma BlankEntryReads(img: seq<Byte>, es: seq<Entry>, start: nat, k: nat)
    requires Laid(img, es, start) && k < |es| && AllPlain(es) && LastAloneIsForeign(es)
    requires BlankFrom(img, BLOCK * start) && BLOCK * start + |Payloads(es)| <= |img|
    ensures ReadEntry(img, k) == Ok(es[k])
  {
    AsciiBefore(es, k);
    EntryStands(img, es, start, k);
    PayloadEnds(es, start, k);
    assert es[k] in es;
    CutOfZeros(img, BLOCK * start, BLOCK * StartAfter(es[..k], start), es[k].payload);
  }

  lemma MagicKept(header: seq<Byte>, img: seq<Byte>)
    requires |header| >= BLOCK && header[..4] == RSCE && |img| >= BLOCK && img[..0x0C] == header[..0x0C]
    ensures Cut(img, 0, 4) == RSCE
  {
    assert Cut(img, 0, 4) == img[..0x0C][..4] == header[..0x0C][..4] == header[..4];
  }

  lemma ReadIsReadFrom(header: seq<Byte>, es: seq<Entry>)
    requires |header| >= BLOCK && header[..4] == RSCE && Write(header, es).Ok?
    ensures Read(Write(header, es).value) == ReadFrom(Write(header, es).value, 0, |es|)
  {
    ImageHeader(header, es);
    MagicKept(header, Write(header, es).value);
  }

  /** Under a whole resource header, what was written reads back exactly when every name is free of
      NULs and at most 252 bytes long, and all are ASCII. The one exception is a picture of nothing:
      the last name may be foreign if every payload is zeros. */
  lemma RoundTripExactly(header: seq<Byte>, es: seq<Entry>)
    requires |header| >= BLOCK && header[..4] == RSCE && Write(header, es).Ok?
    ensures Read(Write(header, es).value) == Ok(es) <==> Survives(es)
  {
    var img := Write(header, es).value;
    WriteLays(header, es);
    ReadIsReadFrom(header, es);
    if ReadFrom(img, 0, |es|) == Ok(es) {
      ReadNamesArePlain(img, 0, |es|);
      ReadGives(img, es);
      ReadBackSurvives(img, es, 1 + |es|);
    } else if AllPlain(es) && AllAscii(es) {
      PlainReadsBack(header, es);
    } else if Survives(es) {
      BlankReadsBack(img, es, 1 + |es|);
    }
  }

  lemma SurvivesAlone(e: Entry)
    requires Survives([e])
    ensures Plain(e.name) && (Ascii(e.name) || Blank(e.payload))
  {
    assert e in [e];
  }

  function LongNamed(): Entry { Entry(seq(NAME_ROOM + 1, i => 0x61), []) }

  function ForeignNamed(): Entry { Entry([0xe9], [1]) }

  lemma OneFits(header: seq<Byte>, e: Entry)
    requires |e.payload| < LIMIT32
    ensures Write(header, [e]).Ok?
  {
    assert [e][1..] == [];
    assert NumbersFit([], 2 + BlocksOf(e.payload));
  }

  lemma NeitherSurvives()
    ensures !Survives([LongNamed()]) && !Survives([ForeignNamed()])
  {
    if Survives([LongNamed()]) {
      AsciiIsShortest(LongNamed().name);
      SurvivesAlone(LongNamed());
    }
    if Survives([ForeignNamed()]) {
      assert ForeignNamed().name[0] == 0xe9 && ForeignNamed().payload[0] == 1;
      SurvivesAlone(ForeignNamed());
    }
  }

  /** A name of 253 letters, whose last is not read, and a name of one accented letter, which moves
      the payload behind it: neither entry reads back. */
  lemma NamesCanBeLost(header: seq<Byte>)
    requires |header| >= BLOCK && header[..4] == RSCE
    ensures var es := [LongNamed()]; Write(header, es).Ok? && Read(Write(header, es).value) != Ok(es)
    ensures var es := [ForeignNamed()]; Write(header, es).Ok? && Read(Write(header, es).value) != Ok(es)
  {
    NeitherSurvives();
    OneFits(header, LongNamed());
    OneFits(header, ForeignNamed());
    RoundTripExactly(header, [LongNamed()]);
    RoundTripExactly(header, [ForeignNamed()]);
  }

  // ---------- The program ----------

  /** "rk-kernel.dtb" */
  const DTB_NAME: Name := [114, 107, 45, 107, 101, 114, 110, 101, 108, 46, 100, 116, 98]

  /** "logo.bmp" and "logo_kernel.bmp" */
  const LOGO_NAMES: set<Name> :=
    {[108, 111, 103, 111, 46, 98, 109, 112],
     [108, 111, 103, 111, 95, 107, 101, 114, 110, 101, 108, 46, 98, 109, 112]}

  const DTB_MAGIC: seq<Byte> := [0xd0, 0x0d, 0xfe, 0xed]
  const BMP_MAGIC: seq<Byte> := [0x42, 0x4d]

  function Replacement(e: Entry, dtb: seq<Byte>, logo: Option<seq<Byte>>): Entry {
    if e.name == DTB_NAME then e.(payload := dtb)
    else if logo.Some? && logo.value != [] && e.name in LOGO_NAMES then e.(payload := logo.value)
    else e
  }

  function Replaced(es: seq<Entry>, dtb: seq<Byte>, logo: Option<seq<Byte>>): (rs: seq<Entry>)
    ensures |rs| == |es| && forall i | 0 <= i < |es| :: rs[i] == Replacement(es[i], dtb, logo)
  {
    seq(|es|, i requires 0 <= i < |es| => Replacement(es[i], dtb, logo))
  }

  predicate HasDtb(es: seq<Entry>) { exists e :: e in es && e.name == DTB_NAME }

  function Remake(blob: seq<Byte>, dtb: seq<Byte>, logo: Option<seq<Byte>>): Result<seq<Byte>> {
    if Cut(dtb, 0, 4) != DTB_MAGIC then Err(NotADtb)
    else if logo.Some? && Cut(logo.value, 0, 2) != BMP_MAGIC then Err(NotABitmap)
    else
      match Read(blob)
      case Err(why) => Err(why)
      case Ok(es) => if !HasDtb(es) then Err(NoDtb) else Write(blob, Replaced(es, dtb, logo))
  }

  /** An image that holds an entry has a whole header block. */
  lemma ReadNeedsBlock(blob: seq<Byte>)
    requires Read(blob).Ok? && Read(blob).value != []
    ensures |blob| >= BLOCK && blob[..4] == RSCE && AllPlain(Read(blob).value)
  {
    ReadNamesArePlain(blob, 0, FromLittle(Cut(blob, 0x0C, 0x10)));
    assert Cut(IndexAt(blob, 0), 0, 4) == ENTR;
    assert |IndexAt(blob, 0)| >= 4;
    assert Cut(blob, 0, 4) == blob[..4];
  }

  lemma SameNamesPlain(es: seq<Entry>, rs: seq<Entry>)
    requires |rs| == |es| && forall i | 0 <= i < |es| :: rs[i].name == es[i].name
    ensures AllPlain(es) ==> AllPlain(rs)
  {
    if AllPlain(es) {
      forall e | e in rs ensures Plain(e.name) {
        var i :| 0 <= i < |rs| && rs[i] == e;
        assert es[i] in es;
      }
    }
  }

  lemma SameNamesAscii(es: seq<Entry>, rs: seq<Entry>)
    requires |rs| == |es| && forall i | 0 <= i < |es| :: rs[i].name == es[i].name
    ensures AllAscii(es) ==> AllAscii(rs)
  {
    if AllAscii(es) {
      forall e | e in rs ensures Ascii(e.name) {
        var i :| 0 <= i < |rs| && rs[i] == e;
        assert es[i] in es;
      }
    }
  }

  lemma ReplacedNames(es: seq<Entry>, dtb: seq<Byte>, logo: Option<seq<Byte>>)
    ensures var rs := Replaced(es, dtb, logo);
            (AllPlain(es) ==> AllPlain(rs)) && (AllAscii(rs) <==> AllAscii(es))
  {
    var rs := Replaced(es, dtb, logo);
    SameNamesPlain(es, rs);
    SameNamesAscii(es, rs);
    SameNamesAscii(rs, es);
  }

  lemma DtbIsNotBlank(es: seq<Entry>, dtb: seq<Byte>, logo: Option<seq<Byte>>)
    requires HasDtb(es) && Cut(dtb, 0, 4) == DTB_MAGIC
    ensures !AllBlank(Replaced(es, dtb, logo))
  {
    var e :| e in es && e.name == DTB_NAME;
    var i :| 0 <= i < |es| && es[i] == e;
    var rs := Replaced(es, dtb, logo);
    assert rs[i] in rs && rs[i].payload == dtb;
    assert dtb[0] == Cut(dtb, 0, 4)[0] == 0xd0;
  }

  /** Whatever the stock image, device tree and logo: an image the program writes reads as the stock
      entries, in their order, with just the named payloads replaced, exactly when the stock image
      has only ASCII names. */
  lemma RemakeReads(blob: seq<Byte>, dtb: seq<Byte>, logo: Option<seq<Byte>>)
    requires Remake(blob, dtb, logo).Ok?
    ensures Read(blob).Ok? && |blob| >= BLOCK
    ensures Read(Remake(blob, dtb, logo).value) == Ok(Replaced(Read(blob).value, dtb, logo)) <==> AllAscii(Read(blob).value)
  {
    var es := Read(blob).value;
    assert es != [];
    ReadNeedsBlock(blob);
    ReplacedNames(es, dtb, logo);
    DtbIsNotBlank(es, dtb, logo);
    RoundTripExactly(blob, Replaced(es, dtb, logo));
  }

  lemma ReplacedTwice(es: seq<Entry>, dtb: seq<Byte>, logo: Option<seq<Byte>>)
    ensures Replaced(Replaced(es, dtb, logo), dtb, logo) == Replaced(es, dtb, logo)
  {
  }

  lemma ReplacedHasDtb(es: seq<Entry>, dtb: seq<Byte>, logo: Option<seq<Byte>>)
    requires HasDtb(es)
    ensures HasDtb(Replaced(es, dtb, logo))
  {
    var e :| e in es && e.name == DTB_NAME;
    var i :| 0 <= i < |es| && es[i] == e;
    var rs := Replaced(es, dtb, logo);
    assert rs[i] in rs && rs[i].name == DTB_NAME;
  }

  lemma RemakeIsWrite(blob: seq<Byte>, dtb: seq<Byte>, logo: Option<seq<Byte>>, es: seq<Entry>)
    requires Cut(dtb, 0, 4) == DTB_MAGIC && (logo.Some? ==> Cut(logo.value, 0, 2) == BMP_MAGIC)
    requires Read(blob) == Ok(es) && HasDtb(es)
    ensures Remake(blob, dtb, logo) == Write(blob, Replaced(es, dtb, logo))
  {
  }

  lemma SameHeaderSameImage(a: seq<Byte>, b: seq<Byte>, es: seq<Entry>)
    requires HeaderBlock(a, |es|) == HeaderBlock(b, |es|)
    ensures Write(a, es) == Write(b, es)
  {
  }

  /** Remaking a remade image with the same parts changes no byte, if it reads back at all. */
  lemma RemakeTwice(blob: seq<Byte>, dtb: seq<Byte>, logo: Option<seq<Byte>>)
    requires Remake(blob, dtb, logo).Ok? && AllAscii(Read(blob).value)
    ensures Remake(Remake(blob, dtb, logo).value, dtb, logo) == Remake(blob, dtb, logo)
  {
    var img, es := Remake(blob, dtb, logo).value, Read(blob).value;
    var rs := Replaced(es, dtb, logo);
    RemakeReads(blob, dtb, logo);
    ReplacedTwice(es, dtb, logo);
    ReplacedHasDtb(es, dtb, logo);
    RemakeIsWrite(img, dtb, logo, rs);
    ImageHeader(blob, rs);
    HeaderAgain(blob, img, |rs|);
    SameHeaderSameImage(img, blob, rs);
  }

  lemma HeaderAgain(header: seq<Byte>, img: seq<Byte>, count: nat)
    requires |header| >= BLOCK && |img| >= BLOCK
    requires img[..0x0C] == header[..0x0C] && img[0x10..BLOCK] == header[0x10..BLOCK]
    ensures HeaderBlock(img, count) == HeaderBlock(header, count)
  {
    var a, b := Cut(img, 0, BLOCK), Cut(header, 0, BLOCK);
    assert a[..0x0C] == img[..0x0C] && b[..0x0C] == header[..0x0C];
    assert a[0x10..] == img[0x10..BLOCK] && b[0x10..] == header[0x10..BLOCK];
  }

  ghost function After(es: seq<Entry>, r: Result<seq<Entry>>): Result<seq<Entry>> {
    match r
    case Err(why) => Err(why)
    case Ok(rest) => Ok(es + rest)
  }

  lemma AfterNothing(r: Result<seq<Entry>>)
    ensures After([], r) == r
  {
    if r.Ok? { assert [] + r.value == r.value; }
  }

  lemma AfterStep(es: seq<Entry>, blob: seq<Byte>, i: nat, count: nat)
    requires i < count && ReadEntry(blob, i).Ok?
    ensures After(es, ReadFrom(blob, i, count)) == After(es + [ReadEntry(blob, i).value], ReadFrom(blob, i + 1, count))
  {
    var e := ReadEntry(blob, i).value;
    if ReadFrom(blob, i + 1, count).Ok? {
      assert es + ([e] + ReadFrom(blob, i + 1, count).value) == es + [e] + ReadFrom(blob, i + 1, count).value;
    }
  }

  lemma AfterFailure(es: seq<Entry>, blob: seq<Byte>, i: nat, count: nat)
    requires i < count && ReadEntry(blob, i).Err?
    ensures After(es, ReadFrom(blob, i, count)) == Err(ReadEntry(blob, i).why)
  {
  }

  method ReadEntries(blob: seq<Byte>) returns (r: Result<seq<Entry>>)
    ensures r == Read(blob)
  {
    if Cut(blob, 0, 4) != RSCE { return Err(NotAnImage); }
    var count := FromLittle(Cut(blob, 0x0C, 0x10));
    AfterNothing(ReadFrom(blob, 0, count));
    var entries: seq<Entry> := [];
    for i := 0 to count
      invariant Read(blob) == After(entries, ReadFrom(blob, i, count))
    {
      var e := ReadOne(blob, i);
      if e.Err? {
        AfterFailure(entries, blob, i, count);
        return Err(e.why);
      }
      AfterStep(entries, blob, i, count);
      entries := entries + [e.value];
    }
    assert entries + [] == entries;
    r := Ok(entries);
  }

  method ReadOne(blob: seq<Byte>, i: nat) returns (r: Result<Entry>)
    ensures r == ReadEntry(blob, i)
  {
    var index := IndexAt(blob, i);
    if Cut(index, 0, 4) != ENTR { return Err(NotAnEntry(i)); }
    var name := DecodeAll(NameOf(index));
    if name.None? { return Err(BadName); }
    r := Ok(Entry(name.value, PayloadOf(blob, index)));
  }

  method MakeIndex(name: Name, start: nat, size: nat) returns (index: seq<Byte>)
    ensures index == IndexBlock(name, start, size)
  {
    var bytes := EncodeAll(name);
    index := Splice(Zeros(BLOCK), 0, 4, ENTR);
    assert |index| == BLOCK && forall k | 0 <= k < BLOCK :: index[k] == if k < 4 then ENTR[k] else 0;
    index := Splice(index, NAME_OFF, NAME_OFF + |name|, bytes);
    assert |index| == IndexSize(name);
    assert forall k | 0 <= k < |index| ::
        index[k] == if k < NAME_OFF then ENTR[k] else if k < NAME_OFF + |bytes| then bytes[k - NAME_OFF] else 0;
    PutNumbers(name, index, start, size);
    index := Splice(index, INDEX_OFF + 4, INDEX_OFF + 8, Little(start, 4));
    index := Splice(index, INDEX_OFF + 8, INDEX_OFF + 12, Little(size, 4));
  }

  lemma PutNumbers(name: Name, index: seq<Byte>, start: nat, size: nat)
    requires |index| == IndexSize(name)
    requires var bytes := EncodeAll(name);
             forall k | 0 <= k < |index| ::
               index[k] == if k < NAME_OFF then ENTR[k] else if k < NAME_OFF + |bytes| then bytes[k - NAME_OFF] else 0
    ensures Splice(Splice(index, INDEX_OFF + 4, INDEX_OFF + 8, Little(start, 4)), INDEX_OFF + 8, INDEX_OFF + 12,
                   Little(size, 4)) == IndexBlock(name, start, size)
  {
    SpliceInside(index, INDEX_OFF + 4, Little(start, 4));
    var started := Splice(index, INDEX_OFF + 4, INDEX_OFF + 8, Little(start, 4));
    SpliceInside(started, INDEX_OFF + 8, Little(size, 4));
  }

  /** What the loop of `WriteImage` has built after `i` entries. */
  ghost predicate Written(es: seq<Entry>, i: nat, first: nat, index: seq<Byte>, payloads: seq<Byte>, start: nat)
    requires i <= |es|
  {
    && index == Indexes(es[..i], first) && payloads == Payloads(es[..i])
    && start == StartAfter(es[..i], first) && NumbersFit(es[..i], first)
  }

  method WriteImage(header: seq<Byte>, entries: seq<Entry>) returns (r: Result<seq<Byte>>)
    ensures r == Write(header, entries)
  {
    if |entries| >= LIMIT32 { return Err(TooBig); }
    var head := HeaderBlock(header, |entries|);
    var index, payloads, start: nat := [], [], 1 + |entries|;
    for i := 0 to |entries|
      invariant Written(entries, i, 1 + |entries|, index, payloads, start)
    {
      var e := entries[i];
      if start >= LIMIT32 || |e.payload| >= LIMIT32 {
        WriteStops(header, entries, i, index, payloads, start);
        return Err(TooBig);
      }
      WriteStep(entries, i, 1 + |entries|, index, payloads, start);
      var block := MakeIndex(e.name, start, |e.payload|);
      index := index + block;
      payloads := payloads + Padded(e.payload);
      start := start + BlocksOf(e.payload);
    }
    WriteEnds(header, entries, index, payloads, start);
    r := Ok(head + index + payloads);
  }

  lemma WriteStep(es: seq<Entry>, i: nat, first: nat, index: seq<Byte>, payloads: seq<Byte>, start: nat)
    requires i < |es| && Written(es, i, first, index, payloads, start)
    requires start < LIMIT32 && |es[i].payload| < LIMIT32
    ensures var e := es[i];
            Written(es, i + 1, first, index + IndexBlock(e.name, start, |e.payload|), payloads + Padded(e.payload),
                    start + BlocksOf(e.payload))
  {
    assert es[..i + 1] == es[..i] + [es[i]];
    NumbersSnoc(es[..i], es[i], first);
    IndexesSnoc(es[..i], es[i], first);
    PayloadsSnoc(es[..i], es[i]);
  }

  lemma WriteStops(header: seq<Byte>, es: seq<Entry>, i: nat, index: seq<Byte>, payloads: seq<Byte>, start: nat)
    requires i < |es| && Written(es, i, 1 + |es|, index, payloads, start)
    requires start >= LIMIT32 || |es[i].payload| >= LIMIT32
    ensures Write(header, es) == Err(TooBig)
  {
    assert es[..i + 1] == es[..i] + [es[i]];
    NumbersSnoc(es[..i], es[i], 1 + |es|);
    FitsPrefix(es, i + 1, 1 + |es|);
  }

  lemma WriteEnds(header: seq<Byte>, es: seq<Entry>, index: seq<Byte>, payloads: seq<Byte>, start: nat)
    requires |es| < LIMIT32 && Written(es, |es|, 1 + |es|, index, payloads, start)
    ensures Write(header, es) == Ok(HeaderBlock(header, |es|) + index + payloads)
  {
    assert es[..|es|] == es;
  }

  lemma {:induction false} NumbersSnoc(es: seq<Entry>, e: Entry, start: nat)
    ensures var s := StartAfter(es, start);
            && StartAfter(es + [e], start) == s + BlocksOf(e.payload)
            && NumbersFit(es + [e], start) == (NumbersFit(es, start) && s < LIMIT32 && |e.payload| < LIMIT32)
  {
    if es == [] {
      assert es + [e] == [e] && [e][1..] == [];
    } else {
      assert (es + [e])[1..] == es[1..] + [e];
      NumbersSnoc(es[1..], e, start + BlocksOf(es[0].payload));
    }
  }

  lemma {:induction false} IndexesSnoc(es: seq<Entry>, e: Entry, start: nat)
    ensures Indexes(es + [e], start) == Indexes(es, start) + IndexBlock(e.name, StartAfter(es, start), |e.payload|)
  {
    if es == [] {
      assert es + [e] == [e] && [e][1..] == [];
      assert Indexes([], start + BlocksOf(e.payload)) == [];
    } else {
      assert (es + [e])[1..] == es[1..] + [e];
      IndexesSnoc(es[1..], e, start + BlocksOf(es[0].payload));
    }
  }

  lemma {:induction false} PayloadsSnoc(es: seq<Entry>, e: Entry)
    ensures Payloads(es + [e]) == Payloads(es) + Padded(e.payload)
  {
    if es == [] {
      assert es + [e] == [e] && [e][1..] == [];
      assert Payloads([]) == [];
    } else {
      assert (es + [e])[1..] == es[1..] + [e];
      PayloadsSnoc(es[1..], e);
    }
  }

  lemma {:induction false} FitsPrefix(es: seq<Entry>, n: nat, start: nat)
    requires n <= |es|
    ensures NumbersFit(es, start) ==> NumbersFit(es[..n], start)
    decreases n
  {
    if n > 0 {
      assert es[..n][1..] == es[1..][..n - 1];
      FitsPrefix(es[1..], n - 1, start + BlocksOf(es[0].payload));
    }
  }
}
