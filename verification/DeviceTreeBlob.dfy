/** Adding a memory reservation to a flattened device tree without recompiling it (version 17 of
    the format, Devicetree Specification sections 5.2 and 5.3). */
module DeviceTreeBlob {
  import opened Basics
  import opened Words

  datatype Failure =
    | TooShort | NotADtb | TooOld | MapUnterminated | Overlaps | BadNumber | Misaligned | SizeMismatch

  datatype Result<T> = Ok(value: T) | Err(why: Failure)

  const MAGIC := 0xd00dfeed
  const HEADER_SIZE := 40
  const ENTRY_SIZE := 16
  const LIMIT32 := 0x1_0000_0000
  const LIMIT64 := 0x1_0000_0000_0000_0000

  datatype Header = Header(
    magic: nat, total: nat, offStruct: nat, offStrings: nat, offMap: nat, version: nat,
    lastComp: nat, bootCpu: nat, sizeStrings: nat, sizeStruct: nat)

  type Entry = (nat, nat)

  function Word32(d: seq<Byte>, p: nat): nat
    requires p + 4 <= |d|
  {
    BigAt(d, p, 4)
  }

  function Word64(d: seq<Byte>, p: nat): nat
    requires p + 8 <= |d|
  {
    BigAt(d, p, 8)
  }

  function ReadHeader(d: seq<Byte>): Header
    requires |d| >= HEADER_SIZE
  {
    Header(Word32(d, 0), Word32(d, 4), Word32(d, 8), Word32(d, 12), Word32(d, 16), Word32(d, 20),
           Word32(d, 24), Word32(d, 28), Word32(d, 32), Word32(d, 36))
  }

  function EntryAt(d: seq<Byte>, p: nat): Entry
    requires p + ENTRY_SIZE <= |d|
  {
    (Word64(d, p), Word64(d, p + 8))
  }

  /** The reserve map at `p`, up to its zero pair. */
  function ReadMap(d: seq<Byte>, p: nat): Result<seq<Entry>>
    decreases |d| - p
  {
    if p + ENTRY_SIZE > |d| then Err(MapUnterminated)
    else if EntryAt(d, p) == (0, 0) then Ok([])
    else
      match ReadMap(d, p + ENTRY_SIZE)
      case Err(why) => Err(why)
      case Ok(rest) => Ok([EntryAt(d, p)] + rest)
  }

  function PackEntry(e: Entry): (s: seq<Byte>)
    ensures |s| == ENTRY_SIZE
  {
    Big(e.0, 8) + Big(e.1, 8)
  }

  function PackEntries(es: seq<Entry>): (s: seq<Byte>)
    ensures |s| == ENTRY_SIZE * |es|
  {
    if es == [] then [] else PackEntry(es[0]) + PackEntries(es[1..])
  }

  function PackMap(es: seq<Entry>): (s: seq<Byte>)
    ensures |s| == ENTRY_SIZE * (|es| + 1)
  {
    PackEntries(es) + PackEntry((0, 0))
  }

  predicate Meets(e: Entry, addr: int, size: int) { addr < e.0 + e.1 && e.0 < addr + size }

  /** A Python slice: bounds past the end are cut. */
  function Slice(d: seq<Byte>, from: nat, len: nat): seq<Byte> {
    var a := if from > |d| then |d| else from;
    var b := if from + len > |d| then |d| else from + len;
    d[a..b]
  }

  /** The three words of the header that move. */
  function Patch(head: seq<Byte>, total: nat, offStruct: nat, offStrings: nat): seq<Byte>
    requires |head| >= 16
  {
    head[..4] + Big(total, 4) + Big(offStruct, 4) + Big(offStrings, 4) + head[16..]
  }

  predicate Fits32(v: int) { 0 <= v < LIMIT32 }

  predicate Fits64(v: int) { 0 <= v < LIMIT64 }

  /** Where the structure block goes, and how far it moves. */
  function NewStruct(h: Header, entries: seq<Entry>): nat { h.offMap + ENTRY_SIZE * (|entries| + 1) }

  function Shift(h: Header, entries: seq<Entry>): int { NewStruct(h, entries) - h.offStruct }

  function Blocks(d: seq<Byte>, h: Header): seq<Byte> {
    Slice(d, h.offStruct, h.sizeStruct) + Slice(d, h.offStrings, h.sizeStrings)
  }

  /** The edited blob: the map grown by one entry, the two blocks moved after it. */
  function Rebuild(d: seq<Byte>, h: Header, entries: seq<Entry>): Result<seq<Byte>> {
    var shift, head := Shift(h, entries), Slice(d, 0, h.offMap);
    if shift % 8 != 0 then Err(Misaligned)
    else if !Fits32(h.total + shift) || !Fits32(NewStruct(h, entries)) || !Fits32(h.offStrings + shift) || |head| < 16 then
      Err(BadNumber)
    else
      var out := Patch(head, h.total + shift, NewStruct(h, entries), h.offStrings + shift) + PackMap(entries) + Blocks(d, h);
      if |out| != h.total + shift then Err(SizeMismatch) else Ok(out)
  }

  function Edit(d: seq<Byte>, addr: int, size: int): Result<seq<Byte>> {
    if |d| < HEADER_SIZE then Err(TooShort)
    else
      var h := ReadHeader(d);
      if h.magic != MAGIC then Err(NotADtb)
      else if h.version < 17 then Err(TooOld)
      else
        match ReadMap(d, h.offMap)
        case Err(why) => Err(why)
        case Ok(entries) =>
          if exists e :: e in entries && Meets(e, addr, size) then Err(Overlaps)
          else if !Fits64(addr) || !Fits64(size) then Err(BadNumber)
          else Rebuild(d, h, entries + [(addr, size)])
  }

  // ---------- What a well-formed blob is ----------

  /** Version 17 or later, header before the map, and both blocks inside the blob, which may be the
      beginning of a longer file. */
  predicate InBounds(d: seq<Byte>) {
    && |d| >= HEADER_SIZE
    && var h := ReadHeader(d);
       && h.magic == MAGIC && h.version >= 17
       && HEADER_SIZE <= h.offMap <= |d| && ReadMap(d, h.offMap).Ok?
       && h.offStruct + h.sizeStruct <= h.total && h.offStrings + h.sizeStrings <= h.total <= |d|
  }

  /** And the strings block somewhere after the structure block, as the specification has them. */
  predicate WellFormed(d: seq<Byte>) {
    InBounds(d) && var h := ReadHeader(d); h.offStruct + h.sizeStruct <= h.offStrings
  }

  // ---------- Words and maps read back ----------

  lemma EntryReadsBack(a: seq<Byte>, e: Entry, b: seq<Byte>)
    requires e.0 < LIMIT64 && e.1 < LIMIT64
    ensures EntryAt(a + PackEntry(e) + b, |a|) == e
  {
    var d := a + PackEntry(e) + b;
    Pow256Values();
    BigReadsBack(d, |a|, e.0, 8);
    BigReadsBack(d, |a| + 8, e.1, 8);
  }

  ghost predicate Storable(es: seq<Entry>) {
    forall e | e in es :: e != (0, 0) && e.0 < LIMIT64 && e.1 < LIMIT64
  }

  lemma {:induction false} PackSnoc(es: seq<Entry>, e: Entry)
    ensures PackEntries(es + [e]) == PackEntries(es) + PackEntry(e)
  {
    if es == [] {
      assert es + [e] == [e] && [e][1..] == [];
    } else {
      assert (es + [e])[1..] == es[1..] + [e];
      PackSnoc(es[1..], e);
    }
  }

  lemma PackFirst(es: seq<Entry>)
    requires es != []
    ensures PackMap(es) == PackEntry(es[0]) + PackMap(es[1..])
  {
  }

  lemma ReadMapStep(d: seq<Byte>, p: nat, first: Entry, rest: seq<Entry>)
    requires p + ENTRY_SIZE <= |d| && EntryAt(d, p) == first != (0, 0) && ReadMap(d, p + ENTRY_SIZE) == Ok(rest)
    ensures ReadMap(d, p) == Ok([first] + rest)
  {
  }

  lemma Middle(a: seq<Byte>, e: seq<Byte>, rest: seq<Byte>, b: seq<Byte>)
    ensures a + (e + rest) + b == a + e + (rest + b) == a + e + rest + b
  {
  }

  /** A packed map reads back as its entries, wherever it stands. */
  lemma {:induction false} MapReadsBack(a: seq<Byte>, es: seq<Entry>, b: seq<Byte>)
    requires Storable(es)
    ensures ReadMap(a + PackMap(es) + b, |a|) == Ok(es)
    decreases |es|
  {
    var d := a + PackMap(es) + b;
    if es == [] {
      assert PackMap(es) == PackEntry((0, 0));
      EntryReadsBack(a, (0, 0), b);
    } else {
      PackFirst(es);
      assert es[0] in es;
      var a', rest := a + PackEntry(es[0]), PackMap(es[1..]);
      Middle(a, PackEntry(es[0]), rest, b);
      EntryReadsBack(a, es[0], rest + b);
      MapReadsBack(a', es[1..], b);
      ReadMapStep(d, |a|, es[0], es[1..]);
      assert [es[0]] + es[1..] == es;
    }
  }

  /** Everything a map reads is storable again. */
  lemma {:induction false} ReadIsStorable(d: seq<Byte>, p: nat)
    requires ReadMap(d, p).Ok?
    ensures Storable(ReadMap(d, p).value)
    decreases |d| - p
  {
    if EntryAt(d, p) != (0, 0) {
      Pow256Values();
      BigAtBound(d, p, 8);
      BigAtBound(d, p + 8, 8);
      ReadIsStorable(d, p + ENTRY_SIZE);
    }
  }

  /** The patched header: three words replaced, every other byte kept. */
  lemma PatchedHeader(head: seq<Byte>, total: nat, offStruct: nat, offStrings: nat, out: seq<Byte>)
    requires |head| >= HEADER_SIZE && total < LIMIT32 && offStruct < LIMIT32 && offStrings < LIMIT32
    requires |out| >= |head| && out[..|head|] == Patch(head, total, offStruct, offStrings)
    ensures ReadHeader(out) == ReadHeader(head).(total := total, offStruct := offStruct, offStrings := offStrings)
    ensures out[..4] == head[..4] && out[16..|head|] == head[16..]
  {
    var patched := Patch(head, total, offStruct, offStrings);
    assert forall k | 0 <= k < |head| :: out[k] == patched[k];
    Pow256Values();
    BigReadsBack(out, 4, total, 4);
    BigReadsBack(out, 8, offStruct, 4);
    BigReadsBack(out, 12, offStrings, 4);
    forall p: nat | p == 0 || 16 <= p <= HEADER_SIZE - 4 ensures Word32(out, p) == Word32(head, p) {
      BigAtSame(out, head, p, 4);
    }
  }

  lemma HeadHeader(d: seq<Byte>, n: nat)
    requires HEADER_SIZE <= n <= |d|
    ensures ReadHeader(d[..n]) == ReadHeader(d)
  {
    forall p: nat | p <= HEADER_SIZE - 4 ensures Word32(d[..n], p) == Word32(d, p) {
      BigAtSame(d[..n], d, p, 4);
    }
  }

  // ---------- The theorems ----------

  lemma Regroup(a: seq<Byte>, b: seq<Byte>, s: seq<Byte>, t: seq<Byte>)
    ensures a + b + s + t == a + b + (s + t)
  {
  }

  /** `head` is the part of `d` before its map, with the three words of the header moved. */
  ghost predicate IsHead(d: seq<Byte>, h: Header, entries: seq<Entry>, head: seq<Byte>) {
    && HEADER_SIZE <= h.offMap <= |d| && |head| == h.offMap
    && 0 <= h.total + Shift(h, entries) && 0 <= h.offStrings + Shift(h, entries)
    && ReadHeader(head) == h.(total := h.total + Shift(h, entries), offStruct := NewStruct(h, entries),
                              offStrings := h.offStrings + Shift(h, entries))
    && head[..4] == d[..4] && head[16..] == d[16..h.offMap]
  }

  /** `out` is such a head, the map and the two blocks of `d`, in that order. */
  ghost predicate Rebuilt(d: seq<Byte>, h: Header, entries: seq<Entry>, head: seq<Byte>, out: seq<Byte>) {
    && IsHead(d, h, entries, head)
    && |out| == h.total + Shift(h, entries)
    && out == head + PackMap(entries) + Blocks(d, h)
  }

  /** The patched header: three words replaced, every other byte kept. */
  lemma PatchIsHead(d: seq<Byte>, h: Header, entries: seq<Entry>)
    requires |d| >= HEADER_SIZE && h == ReadHeader(d) && HEADER_SIZE <= h.offMap <= |d|
    requires Fits32(h.total + Shift(h, entries)) && Fits32(NewStruct(h, entries)) && Fits32(h.offStrings + Shift(h, entries))
    ensures IsHead(d, h, entries, Patch(d[..h.offMap], h.total + Shift(h, entries), NewStruct(h, entries),
                                        h.offStrings + Shift(h, entries)))
  {
    var was, total, offStrings := d[..h.offMap], h.total + Shift(h, entries), h.offStrings + Shift(h, entries);
    PatchedHeader(was, total, NewStruct(h, entries), offStrings, Patch(was, total, NewStruct(h, entries), offStrings));
    HeadHeader(d, h.offMap);
    assert was[..4] == d[..4] && was[16..] == d[16..h.offMap];
  }

  lemma HeadSlice(d: seq<Byte>, n: nat)
    requires n <= |d|
    ensures Slice(d, 0, n) == d[..n]
  {
  }

  lemma RebuildLays(d: seq<Byte>, h: Header, entries: seq<Entry>, out: seq<Byte>)
    requires HEADER_SIZE <= h.offMap <= |d| && Rebuild(d, h, entries) == Ok(out)
    ensures Fits32(h.total + Shift(h, entries)) && Fits32(NewStruct(h, entries)) && Fits32(h.offStrings + Shift(h, entries))
    ensures |out| == h.total + Shift(h, entries)
    ensures out == Patch(d[..h.offMap], h.total + Shift(h, entries), NewStruct(h, entries),
                         h.offStrings + Shift(h, entries)) +
                   PackMap(entries) + Blocks(d, h)
  {
    HeadSlice(d, h.offMap);
  }

  lemma RebuildShape(d: seq<Byte>, h: Header, entries: seq<Entry>, out: seq<Byte>) returns (head: seq<Byte>)
    requires |d| >= HEADER_SIZE && h == ReadHeader(d) && HEADER_SIZE <= h.offMap <= |d|
    requires Rebuild(d, h, entries) == Ok(out)
    ensures Rebuilt(d, h, entries, head, out)
  {
    RebuildLays(d, h, entries, out);
    PatchIsHead(d, h, entries);
    head := Patch(d[..h.offMap], h.total + Shift(h, entries), NewStruct(h, entries), h.offStrings + Shift(h, entries));
  }

  /** A successful edit rebuilds the blob from the old entries and the new one. */
  lemma EditShape(d: seq<Byte>, addr: int, size: int) returns (head: seq<Byte>)
    requires Edit(d, addr, size).Ok? && HEADER_SIZE <= ReadHeader(d).offMap <= |d|
    ensures var h := ReadHeader(d);
            && ReadMap(d, h.offMap).Ok? && Fits64(addr) && Fits64(size)
            && Rebuilt(d, h, ReadMap(d, h.offMap).value + [(addr as nat, size as nat)], head, Edit(d, addr, size).value)
  {
    var h := ReadHeader(d);
    head := RebuildShape(d, h, ReadMap(d, h.offMap).value + [(addr as nat, size as nat)], Edit(d, addr, size).value);
  }

  lemma Parts(a: seq<Byte>, b: seq<Byte>, c: seq<Byte>, out: seq<Byte>)
    requires out == a + b + c
    ensures |out| == |a| + |b| + |c| && out[..|a|] == a && out[|a| + |b|..] == c
  {
  }

  lemma HeadBytes(out: seq<Byte>, n: nat)
    requires HEADER_SIZE <= n <= |out|
    ensures out[..4] == out[..n][..4] && out[16..n] == out[..n][16..]
  {
  }

  /** How a rebuilt blob reads: the header with its three words moved, the map, the blocks. */
  lemma RebuiltReads(d: seq<Byte>, h: Header, entries: seq<Entry>, head: seq<Byte>, out: seq<Byte>)
    requires Storable(entries) && Rebuilt(d, h, entries, head, out)
    ensures |out| >= HEADER_SIZE && NewStruct(h, entries) <= |out|
    ensures ReadHeader(out) == h.(total := |out|, offStruct := NewStruct(h, entries),
                                  offStrings := h.offStrings + Shift(h, entries))
    ensures out[..4] == d[..4] && out[16..h.offMap] == d[16..h.offMap]
    ensures ReadMap(out, h.offMap) == Ok(entries) && out[NewStruct(h, entries)..] == Blocks(d, h)
  {
    Parts(head, PackMap(entries), Blocks(d, h), out);
    HeadHeader(out, h.offMap);
    HeadBytes(out, h.offMap);
    MapReadsBack(head, entries, Blocks(d, h));
  }

  lemma Associates(a: seq<Byte>, b: seq<Byte>, c: seq<Byte>)
    ensures a + b + c == a + (b + c)
  {
  }

  lemma BlocksAt(out: seq<Byte>, p: nat, s: seq<Byte>, t: seq<Byte>)
    requires p <= |out| && out[p..] == s + t
    ensures |out| == p + |s| + |t|
    ensures out[p..p + |s|] == s && out[p + |s|..p + |s| + |t|] == t
  {
    assert out[p..p + |s|] == out[p..][..|s|];
    assert out[p + |s|..p + |s| + |t|] == out[p..][|s|..];
  }

  /** Of the header only the total and the two block offsets differ. */
  ghost predicate SameHeader(d: seq<Byte>, out: seq<Byte>)
    requires WellFormed(d) && WellFormed(out)
  {
    var h, k := ReadHeader(d), ReadHeader(out);
    && k == h.(total := |out|, offStruct := k.offStruct, offStrings := k.offStrings)
    && out[..4] == d[..4] && out[16..h.offMap] == d[16..h.offMap]
  }

  /** The structure and strings blocks are the same bytes, at the offsets each header gives. */
  ghost predicate SameBlocks(d: seq<Byte>, out: seq<Byte>)
    requires |d| >= HEADER_SIZE && |out| >= HEADER_SIZE
  {
    var h, k := ReadHeader(d), ReadHeader(out);
    && k.sizeStruct == h.sizeStruct && k.sizeStrings == h.sizeStrings
    && Slice(out, k.offStruct, k.sizeStruct) == Slice(d, h.offStruct, h.sizeStruct)
    && Slice(out, k.offStrings, k.sizeStrings) == Slice(d, h.offStrings, h.sizeStrings)
  }

  /** The length check: a rebuilt blob took exactly the bytes from the structure to the end. */
  lemma RebuiltIsTight(d: seq<Byte>, h: Header, entries: seq<Entry>, head: seq<Byte>, out: seq<Byte>)
    requires InBounds(d) && h == ReadHeader(d)
    requires Storable(entries) && Rebuilt(d, h, entries, head, out)
    ensures h.offStruct + h.sizeStruct + h.sizeStrings == h.total
  {
    RebuiltReads(d, h, entries, head, out);
    SliceWhole(d, h.offStruct, h.sizeStruct);
    SliceWhole(d, h.offStrings, h.sizeStrings);
  }

  lemma SliceWhole(d: seq<Byte>, from: nat, len: nat)
    requires from + len <= |d|
    ensures |Slice(d, from, len)| == len
  {
  }

  lemma SlicesAt(out: seq<Byte>, p: nat, s: seq<Byte>, t: seq<Byte>)
    requires p <= |out| && out[p..] == s + t
    ensures Slice(out, p, |s|) == s && Slice(out, p + |s|, |t|) == t
  {
    BlocksAt(out, p, s, t);
  }

  /** Where the two blocks of a rebuilt blob are: side by side after the map. */
  lemma RebuiltBlocks(d: seq<Byte>, h: Header, entries: seq<Entry>, head: seq<Byte>, out: seq<Byte>)
    requires h.offStruct + h.sizeStruct <= |d| && h.offStrings + h.sizeStrings <= |d|
    requires Storable(entries) && Rebuilt(d, h, entries, head, out)
    ensures var p := NewStruct(h, entries);
            && Slice(out, p, h.sizeStruct) == Slice(d, h.offStruct, h.sizeStruct)
            && Slice(out, p + h.sizeStruct, h.sizeStrings) == Slice(d, h.offStrings, h.sizeStrings)
  {
    RebuiltReads(d, h, entries, head, out);
    hide Rebuilt, Storable, ReadHeader, ReadMap;
    SliceWhole(d, h.offStruct, h.sizeStruct);
    SliceWhole(d, h.offStrings, h.sizeStrings);
    SlicesAt(out, NewStruct(h, entries), Slice(d, h.offStruct, h.sizeStruct), Slice(d, h.offStrings, h.sizeStrings));
  }

  lemma RebuiltWellFormed(d: seq<Byte>, h: Header, entries: seq<Entry>, head: seq<Byte>, out: seq<Byte>)
    requires WellFormed(d) && h == ReadHeader(d)
    requires Storable(entries) && Rebuilt(d, h, entries, head, out)
    ensures WellFormed(out)
  {
    RebuiltReads(d, h, entries, head, out);
    RebuiltIsTight(d, h, entries, head, out);
  }

  lemma RebuiltSameHeader(d: seq<Byte>, h: Header, entries: seq<Entry>, head: seq<Byte>, out: seq<Byte>)
    requires WellFormed(d) && h == ReadHeader(d) && WellFormed(out)
    requires Storable(entries) && Rebuilt(d, h, entries, head, out)
    ensures SameHeader(d, out)
  {
    RebuiltReads(d, h, entries, head, out);
  }

  lemma RebuiltSameBlocks(d: seq<Byte>, h: Header, entries: seq<Entry>, head: seq<Byte>, out: seq<Byte>)
    requires |d| >= HEADER_SIZE && h == ReadHeader(d)
    requires h.offStrings == h.offStruct + h.sizeStruct && h.offStrings + h.sizeStrings <= |d|
    requires Storable(entries) && Rebuilt(d, h, entries, head, out)
    ensures |out| >= HEADER_SIZE && SameBlocks(d, out)
  {
    RebuiltReads(d, h, entries, head, out);
    RebuiltBlocks(d, h, entries, head, out);
  }

  /** For every well-formed blob the tool accepts and every range but the zero pair, the edited blob
      reads as the old reservations followed by the new one, holds the structure and strings blocks
      byte for byte at the offsets its header gives, keeps every other byte of the header, and
      states its own length. */
  lemma EditKeepsMeaning(d: seq<Byte>, addr: int, size: int)
    requires WellFormed(d) && Edit(d, addr, size).Ok? && (addr, size) != (0, 0)
    ensures Fits64(addr) && Fits64(size)
    ensures var out := Edit(d, addr, size).value;
            && WellFormed(out) && SameHeader(d, out) && SameBlocks(d, out)
            && ReadMap(out, ReadHeader(out).offMap) ==
                 Ok(ReadMap(d, ReadHeader(d).offMap).value + [(addr as nat, size as nat)])
  {
    var h, out := ReadHeader(d), Edit(d, addr, size).value;
    var head := EditShape(d, addr, size);
    ReadIsStorable(d, h.offMap);
    var entries := ReadMap(d, h.offMap).value + [(addr as nat, size as nat)];
    RebuiltIsTight(d, h, entries, head, out);
    RebuiltWellFormed(d, h, entries, head, out);
    RebuiltSameHeader(d, h, entries, head, out);
    RebuiltSameBlocks(d, h, entries, head, out);
    RebuiltReads(d, h, entries, head, out);
  }

  /** On a blob with its blocks in bounds the edit succeeds exactly when the range is unsigned 64-bit
      and meets no reservation, the blocks keep their alignment, the new words fit, and the sizes of
      the two blocks add up to the distance from the structure to the end. */
  lemma EditAccepts(d: seq<Byte>, addr: int, size: int)
    requires InBounds(d)
    ensures var h := ReadHeader(d);
            var entries := ReadMap(d, h.offMap).value;
            var shift := h.offMap + ENTRY_SIZE * (|entries| + 2) - h.offStruct;
            Edit(d, addr, size).Ok? <==>
              && Fits64(addr) && Fits64(size)
              && (forall e | e in entries :: !Meets(e, addr, size))
              && shift % 8 == 0
              && h.total + shift < LIMIT32 && h.offStrings + shift >= 0
              && h.offStruct + h.sizeStruct + h.sizeStrings == h.total
  {
    var h := ReadHeader(d);
    SliceWhole(d, h.offStruct, h.sizeStruct);
    SliceWhole(d, h.offStrings, h.sizeStrings);
    assert |Slice(d, 0, h.offMap)| == h.offMap;
  }

  predicate Covers(x: int, addr: int, size: int) { addr <= x < addr + size }

  /** Two ranges meet exactly when they share an address; an empty one, when it lies strictly inside the other. */
  lemma MeetsExactly(e: Entry, addr: int, size: nat)
    ensures Meets(e, addr, size) <==>
            || (exists x :: Covers(x, e.0, e.1) && Covers(x, addr, size))
            || (e.1 == 0 && addr < e.0 < addr + size)
            || (size == 0 && e.0 < addr < e.0 + e.1)
  {
    if Meets(e, addr, size) && e.1 > 0 && size > 0 {
      var x := if addr < e.0 then e.0 else addr;
      assert Covers(x, e.0, e.1) && Covers(x, addr, size);
    }
  }

  /** A range that fits is refused as overlapping exactly when it meets one of the blob's reservations. */
  lemma OverlapRefused(d: seq<Byte>, addr: int, size: nat)
    requires InBounds(d)
    ensures var entries := ReadMap(d, ReadHeader(d).offMap).value;
            Edit(d, addr, size) == Err(Overlaps) <==>
            exists e :: e in entries &&
              (|| (exists x :: Covers(x, e.0, e.1) && Covers(x, addr, size))
               || (e.1 == 0 && addr < e.0 < addr + size) || (size == 0 && e.0 < addr < e.0 + e.1))
  {
    var entries := ReadMap(d, ReadHeader(d).offMap).value;
    forall e | e in entries
      ensures Meets(e, addr, size) <==>
              || (exists x :: Covers(x, e.0, e.1) && Covers(x, addr, size))
              || (e.1 == 0 && addr < e.0 < addr + size) || (size == 0 && e.0 < addr < e.0 + e.1)
    {
      MeetsExactly(e, addr, size);
    }
  }

  /** So free space is refused: of the well-formed blobs only those are accepted whose strings start
      where the structure ends and end where the blob does. */
  lemma AcceptedIsAdjacent(d: seq<Byte>, addr: int, size: int)
    requires WellFormed(d) && Edit(d, addr, size).Ok?
    ensures var h := ReadHeader(d);
            h.offStrings == h.offStruct + h.sizeStruct && h.offStrings + h.sizeStrings == h.total
  {
    EditAccepts(d, addr, size);
  }

  lemma PackZeroPair(entries: seq<Entry>)
    ensures PackMap(entries + [(0, 0)]) == PackMap(entries) + PackEntry((0, 0))
  {
    PackSnoc(entries, (0, 0));
  }

  lemma RebuiltZeroPair(d: seq<Byte>, h: Header, entries: seq<Entry>, head: seq<Byte>, out: seq<Byte>)
    requires Storable(entries) && Rebuilt(d, h, entries + [(0, 0)], head, out)
    ensures ReadMap(out, h.offMap) == Ok(entries)
  {
    PackZeroPair(entries);
    Associates(head, PackMap(entries), PackEntry((0, 0)));
    Associates(head + PackMap(entries), PackEntry((0, 0)), Blocks(d, h));
    MapReadsBack(head, entries, PackEntry((0, 0)) + Blocks(d, h));
  }

  /** The zero pair is accepted and lost: it ends the map it was meant to join. */
  lemma ZeroPairIsLost(d: seq<Byte>)
    requires InBounds(d) && Edit(d, 0, 0).Ok?
    ensures ReadMap(Edit(d, 0, 0).value, ReadHeader(d).offMap) == ReadMap(d, ReadHeader(d).offMap)
  {
    var h := ReadHeader(d);
    var head := EditShape(d, 0, 0);
    ReadIsStorable(d, h.offMap);
    RebuiltZeroPair(d, h, ReadMap(d, h.offMap).value, head, Edit(d, 0, 0).value);
  }

  /** The length check does not see the order of the blocks. The strings are always put right after
      the structure; the new header says so exactly when they followed it before. */
  lemma StringsFoundExactly(d: seq<Byte>, addr: int, size: int)
    requires InBounds(d) && Edit(d, addr, size).Ok? && (addr, size) != (0, 0)
    ensures |Edit(d, addr, size).value| >= HEADER_SIZE
    ensures var h, out := ReadHeader(d), Edit(d, addr, size).value;
            var k := ReadHeader(out);
            && Slice(out, k.offStruct, k.sizeStruct) == Slice(d, h.offStruct, h.sizeStruct)
            && Slice(out, k.offStruct + k.sizeStruct, k.sizeStrings) == Slice(d, h.offStrings, h.sizeStrings)
            && (k.offStrings == k.offStruct + k.sizeStruct <==> WellFormed(d))
  {
    var h, out := ReadHeader(d), Edit(d, addr, size).value;
    var head := EditShape(d, addr, size);
    ReadIsStorable(d, h.offMap);
    var entries := ReadMap(d, h.offMap).value + [(addr as nat, size as nat)];
    RebuiltFinds(d, h, entries, head, out);
  }

  lemma RebuiltFinds(d: seq<Byte>, h: Header, entries: seq<Entry>, head: seq<Byte>, out: seq<Byte>)
    requires InBounds(d) && h == ReadHeader(d)
    requires Storable(entries) && Rebuilt(d, h, entries, head, out)
    ensures |out| >= HEADER_SIZE
    ensures var k := ReadHeader(out);
            && Slice(out, k.offStruct, k.sizeStruct) == Slice(d, h.offStruct, h.sizeStruct)
            && Slice(out, k.offStruct + k.sizeStruct, k.sizeStrings) == Slice(d, h.offStrings, h.sizeStrings)
            && (k.offStrings == k.offStruct + k.sizeStruct <==> WellFormed(d))
  {
    RebuiltReads(d, h, entries, head, out);
    RebuiltBlocks(d, h, entries, head, out);
    OrderIsAdjacency(d, h, entries, head, out);
  }

  lemma OrderIsAdjacency(d: seq<Byte>, h: Header, entries: seq<Entry>, head: seq<Byte>, out: seq<Byte>)
    requires InBounds(d) && h == ReadHeader(d)
    requires Storable(entries) && Rebuilt(d, h, entries, head, out)
    ensures WellFormed(d) <==> h.offStrings == h.offStruct + h.sizeStruct
  {
    RebuiltIsTight(d, h, entries, head, out);
  }

  function PackWords(ws: seq<nat>): (s: seq<Byte>)
    ensures |s| == 4 * |ws|
  {
    if ws == [] then [] else PackWords(ws[..|ws| - 1]) + Big(ws[|ws| - 1], 4)
  }

  lemma {:induction false} WordReadsBack(ws: seq<nat>, rest: seq<Byte>, i: nat)
    requires i < |ws| && ws[i] < LIMIT32
    ensures Word32(PackWords(ws) + rest, 4 * i) == ws[i]
    decreases |ws|
  {
    var n := |ws| - 1;
    var d := PackWords(ws) + rest;
    Associates(PackWords(ws[..n]), Big(ws[n], 4), rest);
    if i < n {
      WordReadsBack(ws[..n], Big(ws[n], 4) + rest, i);
    } else {
      Pow256Values();
      BigReadsBack(d, 4 * n, ws[n], 4);
    }
  }

  /** A blob of 80 bytes whose strings, eight ones, stand before its structure: the header, a map of
      just the zero pair, the strings, the structure, and eight bytes of padding. */
  const SWAPPED_WORDS: seq<nat> := [MAGIC, 80, 64, 56, 40, 17, 16, 0, 8, 8]

  function Swapped(): seq<Byte> {
    PackWords(SWAPPED_WORDS) + (PackMap([]) + (seq(8, _ => 1) + seq(16, _ => 2)))
  }

  lemma SwappedWord(i: nat)
    requires i < 10
    ensures Word32(Swapped(), 4 * i) == SWAPPED_WORDS[i]
  {
    WordReadsBack(SWAPPED_WORDS, PackMap([]) + (seq(8, _ => 1) + seq(16, _ => 2)), i);
  }

  lemma SwappedMap()
    ensures |Swapped()| == 80 && ReadMap(Swapped(), 40) == Ok([]) && Swapped()[56] == 1
  {
    Associates(PackWords(SWAPPED_WORDS), PackMap([]), seq(8, _ => 1) + seq(16, _ => 2));
    MapReadsBack(PackWords(SWAPPED_WORDS), [], seq(8, _ => 1) + seq(16, _ => 2));
  }

  lemma SwappedReads()
    ensures LooksSwapped(Swapped())
  {
    SwappedMap();
    SwappedWord(0);
    SwappedWord(1);
    SwappedWord(2);
    SwappedWord(3);
    SwappedWord(4);
    SwappedWord(5);
    SwappedWord(6);
    SwappedWord(7);
    SwappedWord(8);
    SwappedWord(9);
  }

  const SWAPPED_HEADER := Header(MAGIC, 80, 64, 56, 40, 17, 16, 0, 8, 8)

  predicate LooksSwapped(d: seq<Byte>) {
    |d| >= 80 && ReadHeader(d) == SWAPPED_HEADER && ReadMap(d, 40) == Ok([]) && d[56] != 0
  }

  lemma SwappedAccepted(d: seq<Byte>)
    requires LooksSwapped(d)
    ensures InBounds(d) && !WellFormed(d) && Edit(d, 1, 1).Ok?
  {
    EditAccepts(d, 1, 1);
  }

  lemma SwappedOut(d: seq<Byte>, out: seq<Byte>)
    requires LooksSwapped(d) && Edit(d, 1, 1) == Ok(out)
    ensures |out| >= 72 && out[64] == 0
    ensures ReadHeader(out).offStrings == 64 && ReadHeader(out).sizeStrings == 8
  {
    var head := EditShape(d, 1, 1);
    assert [] + [(1, 1)] == [(1, 1)];
    RebuiltReads(d, SWAPPED_HEADER, [(1, 1)], head, out);
    TerminatorIsZero(head, [(1, 1)], Blocks(d, SWAPPED_HEADER));
  }

  lemma FirstOfSlice(d: seq<Byte>, from: nat, len: nat)
    requires 0 < len && from + len <= |d|
    ensures |Slice(d, from, len)| == len && Slice(d, from, len)[0] == d[from]
  {
  }

  /** Such a blob is accepted, and the edited blob's header finds other bytes for the strings. */
  lemma SwappedLosesStrings(d: seq<Byte>, out: seq<Byte>)
    requires LooksSwapped(d) && Edit(d, 1, 1) == Ok(out)
    ensures |out| >= HEADER_SIZE
    ensures var h, k := ReadHeader(d), ReadHeader(out);
            Slice(out, k.offStrings, k.sizeStrings) != Slice(d, h.offStrings, h.sizeStrings)
  {
    SwappedOut(d, out);
    FirstOfSlice(out, 64, 8);
    FirstOfSlice(d, 56, 8);
  }

  /** And there is one. */
  lemma StringsCanBeLost()
    ensures LooksSwapped(Swapped()) && InBounds(Swapped()) && Edit(Swapped(), 1, 1).Ok?
  {
    SwappedReads();
    SwappedAccepted(Swapped());
  }

  lemma SwappedTakesZeroPair(d: seq<Byte>)
    requires LooksSwapped(d)
    ensures InBounds(d) && Edit(d, 0, 0).Ok?
  {
    EditAccepts(d, 0, 0);
  }

  /** The zero pair is accepted somewhere. */
  lemma ZeroPairHappens()
    ensures InBounds(Swapped()) && Edit(Swapped(), 0, 0).Ok?
  {
    SwappedReads();
    SwappedTakesZeroPair(Swapped());
  }

  lemma TerminatorIsZero(a: seq<Byte>, es: seq<Entry>, b: seq<Byte>)
    ensures (a + PackMap(es) + b)[|a| + ENTRY_SIZE * |es| + 8] == 0
  {
    assert Big(0, 8)[0] == 0 by { BigZero(8); }
    assert PackEntry((0, 0))[8] == Big(0, 8)[0];
  }

  lemma {:induction false} BigZero(n: nat)
    ensures forall k | 0 <= k < n :: Big(0, n)[k] == 0
  {
    if n > 0 { BigZero(n - 1); }
  }

  // ---------- The program ----------

  method AddReserve(d: seq<Byte>, addr: int, size: int) returns (r: Result<seq<Byte>>)
    ensures r == Edit(d, addr, size)
  {
    if |d| < HEADER_SIZE { return Err(TooShort); }
    var h := ReadHeader(d);
    if h.magic != MAGIC { return Err(NotADtb); }
    if h.version < 17 { return Err(TooOld); }
    var ok, entries := ParseMap(d, h.offMap);
    if !ok { return Err(MapUnterminated); }
    var meets := MeetsAny(entries, addr, size);
    if meets { return Err(Overlaps); }
    if !Fits64(addr) || !Fits64(size) { return Err(BadNumber); }
    r := Relocate(d, h, entries + [(addr, size)]);
  }

  /** Lays the grown map after the header and the two blocks after the map. */
  method Relocate(d: seq<Byte>, h: Header, entries: seq<Entry>) returns (r: Result<seq<Byte>>)
    ensures r == Rebuild(d, h, entries)
  {
    var rsvmap := PackReserve(entries);
    var newStruct := h.offMap + |rsvmap|;
    var shift := newStruct - h.offStruct;
    if shift % 8 != 0 { return Err(Misaligned); }
    var newStrings, newTotal := h.offStrings + shift, h.total + shift;
    var head := Slice(d, 0, h.offMap);
    if !Fits32(newTotal) || !Fits32(newStruct) || !Fits32(newStrings) || |head| < 16 { return Err(BadNumber); }
    head := Patch(head, newTotal, newStruct, newStrings);
    Regroup(head, rsvmap, Slice(d, h.offStruct, h.sizeStruct), Slice(d, h.offStrings, h.sizeStrings));
    var out := head + rsvmap + Slice(d, h.offStruct, h.sizeStruct) + Slice(d, h.offStrings, h.sizeStrings);
    if |out| != newTotal { return Err(SizeMismatch); }
    r := Ok(out);
  }

  method MeetsAny(entries: seq<Entry>, addr: int, size: int) returns (meets: bool)
    ensures meets <==> exists e :: e in entries && Meets(e, addr, size)
  {
    for i := 0 to |entries|
      invariant forall k | 0 <= k < i :: !Meets(entries[k], addr, size)
    {
      if addr < entries[i].0 + entries[i].1 && entries[i].0 < addr + size {
        assert entries[i] in entries && Meets(entries[i], addr, size);
        return true;
      }
    }
    meets := false;
  }

  method PackReserve(entries: seq<Entry>) returns (rsvmap: seq<Byte>)
    ensures rsvmap == PackMap(entries)
  {
    rsvmap := [];
    for i := 0 to |entries|
      invariant rsvmap == PackEntries(entries[..i])
    {
      assert entries[..i + 1] == entries[..i] + [entries[i]];
      PackSnoc(entries[..i], entries[i]);
      rsvmap := rsvmap + PackEntry(entries[i]);
    }
    assert entries[..|entries|] == entries;
    rsvmap := rsvmap + PackEntry((0, 0));
  }

  lemma ReadMapUnfolds(d: seq<Byte>, p: nat)
    requires p + ENTRY_SIZE <= |d|
    ensures EntryAt(d, p) == (0, 0) ==> ReadMap(d, p) == Ok([])
    ensures EntryAt(d, p) != (0, 0) ==> ReadMap(d, p).Ok? == ReadMap(d, p + ENTRY_SIZE).Ok?
    ensures EntryAt(d, p) != (0, 0) && ReadMap(d, p).Ok? ==>
              ReadMap(d, p).value == [EntryAt(d, p)] + ReadMap(d, p + ENTRY_SIZE).value
  {
  }

  /** Reads the map entry by entry to its zero pair. */
  method ParseMap(d: seq<Byte>, start: nat) returns (ok: bool, entries: seq<Entry>)
    ensures (if ok then Ok(entries) else Err(MapUnterminated)) == ReadMap(d, start)
  {
    var p := start;
    entries := [];
    while p + ENTRY_SIZE <= |d|
      invariant start <= p
      invariant ReadMap(d, start).Ok? == ReadMap(d, p).Ok?
      invariant ReadMap(d, p).Ok? ==> ReadMap(d, start).value == entries + ReadMap(d, p).value
      decreases |d| - p
    {
      ReadMapUnfolds(d, p);
      var e := EntryAt(d, p);
      p := p + ENTRY_SIZE;
      if e.0 == 0 && e.1 == 0 {
        assert entries + [] == entries;
        return true, entries;
      }
      entries := entries + [e];
    }
    ReadMapFails(d, start);
    ok := false;
  }

  lemma {:induction false} ReadMapFails(d: seq<Byte>, p: nat)
    ensures ReadMap(d, p).Err? ==> ReadMap(d, p).why == MapUnterminated
    decreases |d| - p
  {
    if p + ENTRY_SIZE <= |d| { ReadMapFails(d, p + ENTRY_SIZE); }
  }
}
