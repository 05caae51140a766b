/** The glyph cache: one open-addressed table per font under a byte budget shared by all open
    fonts. Rasterising is an abstract, deterministic function of the face and code point. */
module GlyphCache {
  import opened Utf8

  const CACHE_LIMIT := 2 * 1024 * 1024
  const SLOT_COUNT := 512
  const QUESTION := 63

  /** A rasterised glyph: its box, placement and coverage bytes. */
  datatype Raster = Raster(w: nat, h: nat, xoff: int, yoff: int, bits: seq<int>)

  /** An open face: which code points it has, their rasters and advances. */
  datatype Face = Face(has: int -> bool, raster: int -> Raster, advance: int -> int)

  datatype Glyph = Glyph(cp: int, raster: Raster, advance: int)

  datatype Slot = Free | Used(g: Glyph)

  datatype Font = Font(face: Face, slots: seq<Slot>)

  /** Every open font, the most recently opened first, and the bytes they hold together. */
  datatype Cache = Cache(fonts: seq<Font>, total: int)

  function Pick(face: Face, cp: int): int {
    if face.has(cp) then cp else if face.has(REPLACEMENT) then REPLACEMENT else QUESTION
  }

  function Fresh(face: Face, cp: int): Glyph { Glyph(cp, face.raster(cp), face.advance(cp)) }

  function Area(r: Raster): nat { r.w * r.h }

  function Bytes(s: Slot): nat { if s.Used? then Area(s.g.raster) else 0 }

  /** Multiplicative hashing in 32-bit unsigned arithmetic. */
  function Home(cp: int): (h: int)
    ensures 0 <= h < SLOT_COUNT
  {
    cp % 0x1_0000_0000 * 2654435761 % 0x1_0000_0000 % SLOT_COUNT
  }

  /** The slot `d` places after `h`, around the table. */
  function Around(h: int, d: int): (i: int)
    requires 0 <= h < SLOT_COUNT && 0 <= d <= SLOT_COUNT
    ensures 0 <= i < SLOT_COUNT
  {
    if h + d < SLOT_COUNT then h + d else h + d - SLOT_COUNT
  }

  lemma StepAround(h: int, d: int)
    requires 0 <= h < SLOT_COUNT && 0 <= d < SLOT_COUNT
    ensures (Around(h, d) + 1) % SLOT_COUNT == Around(h, d + 1)
  {
  }

  function Distance(h: int, i: int): (d: int)
    requires 0 <= h < SLOT_COUNT && 0 <= i < SLOT_COUNT
    ensures 0 <= d < SLOT_COUNT && Around(h, d) == i
  {
    if i >= h then i - h else i - h + SLOT_COUNT
  }

  datatype Probe = Hit(d: int) | Vacant(d: int) | Full

  function EmptyTable(): seq<Slot> { seq(SLOT_COUNT, _ => Free) }

  /** Linear probing for `cp` from `d` places after its home. */
  function Search(slots: seq<Slot>, cp: int, d: nat): (p: Probe)
    requires |slots| == SLOT_COUNT && d <= SLOT_COUNT
    ensures !p.Full? ==> d <= p.d < SLOT_COUNT
    ensures var last := if p.Full? then SLOT_COUNT else p.d;
            forall e | d <= e < last :: slots[Around(Home(cp), e)].Used? && slots[Around(Home(cp), e)].g.cp != cp
    ensures p.Hit? ==> slots[Around(Home(cp), p.d)].Used? && slots[Around(Home(cp), p.d)].g.cp == cp
    ensures p.Vacant? ==> slots[Around(Home(cp), p.d)].Free?
    decreases SLOT_COUNT - d
  {
    if d == SLOT_COUNT then Full
    else
      var s := slots[Around(Home(cp), d)];
      if s.Free? then Vacant(d) else if s.g.cp == cp then Hit(d) else Search(slots, cp, d + 1)
  }

  function TableBytes(slots: seq<Slot>, n: nat): nat
    requires n <= |slots|
  {
    if n == 0 then 0 else TableBytes(slots, n - 1) + Bytes(slots[n - 1])
  }

  function FontBytes(f: Font): nat { TableBytes(f.slots, |f.slots|) }

  function AllBytes(fonts: seq<Font>): nat {
    if fonts == [] then 0 else AllBytes(fonts[..|fonts| - 1]) + FontBytes(fonts[|fonts| - 1])
  }

  // ---------- Operations ----------

  function Open(c: Cache, face: Face): Cache {
    c.(fonts := [Font(face, EmptyTable())] + c.fonts)
  }

  function ClearFont(c: Cache, k: nat): Cache
    requires k < |c.fonts|
  {
    Cache(c.fonts[k := c.fonts[k].(slots := EmptyTable())], c.total - FontBytes(c.fonts[k]))
  }

  function Close(c: Cache, k: nat): Cache
    requires k < |c.fonts|
  {
    Cache(c.fonts[..k] + c.fonts[k + 1..], c.total - FontBytes(c.fonts[k]))
  }

  function ClearBelow(c: Cache, n: nat): (r: Cache)
    requires n <= |c.fonts|
    ensures |r.fonts| == |c.fonts|
  {
    if n == 0 then c else ClearFont(ClearBelow(c, n - 1), n - 1)
  }

  lemma ClearBelowStep(c: Cache, n: nat)
    requires n < |c.fonts|
    ensures ClearBelow(c, n + 1) == ClearFont(ClearBelow(c, n), n)
  {
  }

  lemma {:induction false} ClearBelowFonts(c: Cache, n: nat)
    requires n <= |c.fonts|
    ensures forall i | 0 <= i < |c.fonts| ::
              ClearBelow(c, n).fonts[i] == if i < n then c.fonts[i].(slots := EmptyTable()) else c.fonts[i]
  {
    if n > 0 { ClearBelowFonts(c, n - 1); }
  }

  function ClearAll(c: Cache): (r: Cache)
    ensures |r.fonts| == |c.fonts|
    ensures forall i | 0 <= i < |c.fonts| :: r.fonts[i] == c.fonts[i].(slots := EmptyTable())
  {
    ClearBelowFonts(c, |c.fonts|);
    ClearBelow(c, |c.fonts|)
  }

  function Store(c: Cache, k: nat, i: int, g: Glyph): Cache
    requires k < |c.fonts| && 0 <= i < |c.fonts[k].slots|
  {
    Cache(c.fonts[k := c.fonts[k].(slots := c.fonts[k].slots[i := Used(g)])], c.total + Area(g.raster))
  }

  datatype Answer = NoGlyph | Found(g: Glyph)

  /** A miss: the glyph is rasterised into slot `i`, after clearing every open font when the
      budget would be passed. A glyph larger than the whole budget is not stored or returned. */
  function Miss(c: Cache, k: nat, cp: int, i: int): (Cache, Answer)
    requires k < |c.fonts| && |c.fonts[k].slots| == SLOT_COUNT && 0 <= i < SLOT_COUNT
  {
    var g := Fresh(c.fonts[k].face, cp);
    if Area(g.raster) > CACHE_LIMIT then (c, NoGlyph)
    else if c.total + Area(g.raster) > CACHE_LIMIT then (Store(ClearAll(c), k, Home(cp), g), Found(g))
    else (Store(c, k, i, g), Found(g))
  }

  /** lookup: probing for the code point the face really draws. A full table without it is
      cleared first. */
  function Lookup(c: Cache, k: nat, text: int): (Cache, Answer)
    requires k < |c.fonts| && |c.fonts[k].slots| == SLOT_COUNT
  {
    var cp := Pick(c.fonts[k].face, text);
    match Search(c.fonts[k].slots, cp, 0)
    case Hit(d) => (c, Found(c.fonts[k].slots[Around(Home(cp), d)].g))
    case Vacant(d) => Miss(c, k, cp, Around(Home(cp), d))
    case Full => Miss(ClearFont(c, k), k, cp, Home(cp))
  }

  // ---------- The invariant ----------

  /** A stored glyph is what the face would draw now, and is reachable by probing. */
  predicate SlotOk(f: Font, i: int)
    requires |f.slots| == SLOT_COUNT && 0 <= i < SLOT_COUNT
  {
    f.slots[i].Used? ==>
      var g := f.slots[i].g;
      && g == Fresh(f.face, g.cp)
      && forall e | 0 <= e < Distance(Home(g.cp), i) :: f.slots[Around(Home(g.cp), e)].Used?
  }

  predicate NoDuplicates(slots: seq<Slot>) {
    forall i, j | 0 <= i < j < |slots| && slots[i].Used? && slots[j].Used? :: slots[i].g.cp != slots[j].g.cp
  }

  ghost predicate FontOk(f: Font) {
    && |f.slots| == SLOT_COUNT
    && (forall i | 0 <= i < SLOT_COUNT :: SlotOk(f, i))
    && NoDuplicates(f.slots)
  }

  /** The byte count is the sum over all open fonts. */
  predicate Balanced(c: Cache) {
    c.total == AllBytes(c.fonts)
  }

  ghost predicate Inv(c: Cache) {
    && (forall k | 0 <= k < |c.fonts| :: FontOk(c.fonts[k]))
    && Balanced(c) && c.total <= CACHE_LIMIT
  }

  lemma EmptyOk(face: Face)
    ensures FontOk(Font(face, EmptyTable())) && FontBytes(Font(face, EmptyTable())) == 0
  {
    FreeBytes(EmptyTable(), SLOT_COUNT);
    forall i | 0 <= i < SLOT_COUNT ensures SlotOk(Font(face, EmptyTable()), i) {}
  }

  lemma {:induction false} FreeBytes(slots: seq<Slot>, n: nat)
    requires n <= |slots| && forall i | 0 <= i < n :: slots[i].Free?
    ensures TableBytes(slots, n) == 0
  {
    if n > 0 { FreeBytes(slots, n - 1); }
  }

  lemma HitOnce(slots: seq<Slot>, i: int, j: int)
    requires NoDuplicates(slots) && 0 <= i < |slots| && 0 <= j < |slots| && i != j
    requires slots[i].Used? && slots[j].Used?
    ensures slots[i].g.cp != slots[j].g.cp
  {
  }

  lemma {:induction false} SearchReaches(slots: seq<Slot>, cp: int, e: nat, d: nat)
    requires |slots| == SLOT_COUNT && e <= d < SLOT_COUNT
    requires forall x | e <= x < d :: slots[Around(Home(cp), x)].Used? && slots[Around(Home(cp), x)].g.cp != cp
    requires slots[Around(Home(cp), d)].Used? && slots[Around(Home(cp), d)].g.cp == cp
    ensures Search(slots, cp, e) == Hit(d)
    decreases d - e
  {
    hide Home;
    if e < d { SearchReaches(slots, cp, e + 1, d); }
  }

  /** Every stored code point is found by probing, at the slot that holds it. */
  lemma StoredIsFound(f: Font, i: int)
    requires FontOk(f) && 0 <= i < SLOT_COUNT && f.slots[i].Used?
    ensures Search(f.slots, f.slots[i].g.cp, 0) == Hit(Distance(Home(f.slots[i].g.cp), i))
  {
    hide Home, Search;
    var cp := f.slots[i].g.cp;
    var d := Distance(Home(cp), i);
    assert SlotOk(f, i);
    forall e | 0 <= e < d ensures f.slots[Around(Home(cp), e)].Used? && f.slots[Around(Home(cp), e)].g.cp != cp {
      HitOnce(f.slots, i, Around(Home(cp), e));
    }
    SearchReaches(f.slots, cp, 0, d);
  }

  /** A vacancy means the code point is nowhere in the table. */
  lemma VacantIsAbsent(f: Font, cp: int, j: int)
    requires FontOk(f) && !Search(f.slots, cp, 0).Hit? && 0 <= j < SLOT_COUNT && f.slots[j].Used?
    ensures f.slots[j].g.cp != cp
  {
    if f.slots[j].g.cp == cp { StoredIsFound(f, j); }
  }

  lemma {:induction false} TableBytesUpdate(slots: seq<Slot>, i: int, s: Slot, n: nat)
    requires 0 <= i < |slots| && n <= |slots|
    ensures TableBytes(slots[i := s], n) == TableBytes(slots, n) + if i < n then Bytes(s) - Bytes(slots[i]) else 0
  {
    if n > 0 { TableBytesUpdate(slots, i, s, n - 1); }
  }

  lemma {:induction false} AllBytesUpdate(fonts: seq<Font>, k: int, f: Font)
    requires 0 <= k < |fonts|
    ensures AllBytes(fonts[k := f]) == AllBytes(fonts) - FontBytes(fonts[k]) + FontBytes(f)
  {
    var n := |fonts| - 1;
    if k < n {
      assert fonts[k := f][..n] == fonts[..n][k := f];
      AllBytesUpdate(fonts[..n], k, f);
    } else {
      assert fonts[k := f][..n] == fonts[..n];
    }
  }

  lemma {:induction false} AllBytesConcat(a: seq<Font>, b: seq<Font>)
    ensures AllBytes(a + b) == AllBytes(a) + AllBytes(b)
  {
    if b == [] {
      assert a + b == a;
    } else {
      var n := |b| - 1;
      assert (a + b)[..|a + b| - 1] == a + b[..n];
      AllBytesConcat(a, b[..n]);
    }
  }

  /** Filling the first vacancy on the probe path keeps every stored glyph reachable. */
  lemma FillOk(f: Font, cp: int, d: int)
    requires FontOk(f) && Search(f.slots, cp, 0) == Vacant(d)
    ensures var i := Around(Home(cp), d);
            var r := f.(slots := f.slots[i := Used(Fresh(f.face, cp))]);
            FontOk(r) && FontBytes(r) == FontBytes(f) + Area(f.face.raster(cp))
  {
    var i := Around(Home(cp), d);
    var r := f.(slots := f.slots[i := Used(Fresh(f.face, cp))]);
    TableBytesUpdate(f.slots, i, Used(Fresh(f.face, cp)), SLOT_COUNT);
    forall j | 0 <= j < SLOT_COUNT && j != i && f.slots[j].Used? ensures f.slots[j].g.cp != cp {
      VacantIsAbsent(f, cp, j);
    }
    forall j | 0 <= j < SLOT_COUNT ensures SlotOk(r, j) {
      assert SlotOk(f, j);
      assert Distance(Home(cp), i) == d;
    }
  }

  /** The home slot of an empty table is the first vacancy. */
  lemma EmptyVacancy(cp: int)
    ensures Search(EmptyTable(), cp, 0) == Vacant(0) && Around(Home(cp), 0) == Home(cp)
  {
  }

  lemma {:induction false} AllFree(fonts: seq<Font>)
    requires forall f | f in fonts :: FontBytes(f) == 0
    ensures AllBytes(fonts) == 0
  {
    if fonts != [] {
      assert fonts[|fonts| - 1] in fonts;
      AllFree(fonts[..|fonts| - 1]);
    }
  }

  lemma {:induction false} ClearBelowTotal(c: Cache, n: nat)
    requires n <= |c.fonts| && Balanced(c)
    ensures Balanced(ClearBelow(c, n))
  {
    if n > 0 {
      ClearBelowTotal(c, n - 1);
      ClearFontTotal(ClearBelow(c, n - 1), n - 1);
    }
  }

  lemma ClearFontTotal(c: Cache, k: nat)
    requires k < |c.fonts| && Balanced(c)
    ensures Balanced(ClearFont(c, k))
  {
    EmptyOk(c.fonts[k].face);
    AllBytesUpdate(c.fonts, k, c.fonts[k].(slots := EmptyTable()));
  }

  lemma ClearFontKeeps(c: Cache, k: nat)
    requires Inv(c) && k < |c.fonts|
    ensures Inv(ClearFont(c, k))
  {
    EmptyOk(c.fonts[k].face);
    ClearFontTotal(c, k);
  }

  lemma ClearAllKeeps(c: Cache)
    requires Inv(c)
    ensures Inv(ClearAll(c)) && ClearAll(c).total == 0
  {
    var r := ClearAll(c);
    ClearBelowTotal(c, |c.fonts|);
    forall i | 0 <= i < |r.fonts| ensures FontOk(r.fonts[i]) && FontBytes(r.fonts[i]) == 0 { EmptyOk(c.fonts[i].face); }
    AllFree(r.fonts);
  }

  lemma StoreKeeps(c: Cache, k: nat, cp: int, d: int)
    requires Inv(c) && k < |c.fonts| && Search(c.fonts[k].slots, cp, 0) == Vacant(d)
    requires c.total + Area(c.fonts[k].face.raster(cp)) <= CACHE_LIMIT
    ensures Inv(Store(c, k, Around(Home(cp), d), Fresh(c.fonts[k].face, cp)))
  {
    var f := c.fonts[k];
    var i := Around(Home(cp), d);
    FillOk(f, cp, d);
    AllBytesUpdate(c.fonts, k, f.(slots := f.slots[i := Used(Fresh(f.face, cp))]));
  }

  /** The same fonts are open, with the same faces. */
  ghost predicate SameFaces(c: Cache, r: Cache) {
    |r.fonts| == |c.fonts| && forall i | 0 <= i < |c.fonts| :: r.fonts[i].face == c.fonts[i].face
  }

  /** What a fresh rasterisation gives, unless it alone is larger than the budget. */
  function Ideal(face: Face, cp: int): Answer {
    if Area(face.raster(cp)) <= CACHE_LIMIT then Found(Fresh(face, cp)) else NoGlyph
  }

  lemma MissKeeps(c: Cache, k: nat, cp: int, d: int)
    requires Inv(c) && k < |c.fonts| && Search(c.fonts[k].slots, cp, 0) == Vacant(d)
    ensures var (r, a) := Miss(c, k, cp, Around(Home(cp), d));
            Inv(r) && SameFaces(c, r) && a == Ideal(c.fonts[k].face, cp)
  {
    var area := Area(c.fonts[k].face.raster(cp));
    if area <= CACHE_LIMIT {
      if c.total + area > CACHE_LIMIT {
        ClearAllKeeps(c);
        EmptyVacancy(cp);
        assert ClearAll(c).fonts[k].slots == EmptyTable();
        StoreKeeps(ClearAll(c), k, cp, 0);
      } else {
        StoreKeeps(c, k, cp, d);
      }
    }
  }

  /** A lookup answers with exactly what a fresh rasterisation of the face's code point gives,
      unless that alone is larger than the budget, and keeps the invariant. */
  lemma LookupIsFresh(c: Cache, k: nat, text: int)
    requires Inv(c) && k < |c.fonts|
    ensures FontOk(c.fonts[k])
    ensures var (r, a) := Lookup(c, k, text);
            Inv(r) && SameFaces(c, r) && a == Ideal(c.fonts[k].face, Pick(c.fonts[k].face, text))
  {
    var f := c.fonts[k];
    var cp := Pick(f.face, text);
    match Search(f.slots, cp, 0)
    case Hit(d) =>
      var i := Around(Home(cp), d);
      assert SlotOk(f, i);
      BytesWithin(c, k, i);
    case Vacant(d) => MissKeeps(c, k, cp, d);
    case Full =>
      ClearFontKeeps(c, k);
      EmptyVacancy(cp);
      MissKeeps(ClearFont(c, k), k, cp, 0);
  }

  /** No stored glyph is larger than the budget. */
  lemma BytesWithin(c: Cache, k: nat, i: int)
    requires Inv(c) && k < |c.fonts| && 0 <= i < |c.fonts[k].slots|
    ensures Bytes(c.fonts[k].slots[i]) <= CACHE_LIMIT
  {
    TableBytesUpdate(c.fonts[k].slots, i, Free, |c.fonts[k].slots|);
    AllBytesUpdate(c.fonts, k, c.fonts[k].(slots := c.fonts[k].slots[i := Free]));
  }

  lemma OpenKeeps(c: Cache, face: Face)
    requires Inv(c)
    ensures Inv(Open(c, face))
  {
    var f := Font(face, EmptyTable());
    EmptyOk(face);
    AllBytesConcat([f], c.fonts);
    assert AllBytes([f]) == AllBytes([]) + FontBytes(f);
  }

  lemma CloseKeeps(c: Cache, k: nat)
    requires Inv(c) && k < |c.fonts|
    ensures Inv(Close(c, k))
  {
    var f := c.fonts[k];
    assert c.fonts == c.fonts[..k] + [f] + c.fonts[k + 1..];
    AllBytesConcat(c.fonts[..k] + [f], c.fonts[k + 1..]);
    AllBytesConcat(c.fonts[..k], [f]);
    AllBytesConcat(c.fonts[..k], c.fonts[k + 1..]);
    assert AllBytes([f]) == AllBytes([]) + FontBytes(f);
  }

  // ---------- Runs ----------

  datatype Step = OpenFont(face: Face) | CloseFont(k: nat) | Draw(k: nat, cp: int)

  predicate Enabled(c: Cache, s: Step) {
    match s
    case OpenFont(_) => true
    case CloseFont(k) => k < |c.fonts|
    case Draw(k, _) => k < |c.fonts| && |c.fonts[k].slots| == SLOT_COUNT
  }

  function Next(c: Cache, s: Step): Cache
    requires Enabled(c, s)
  {
    match s
    case OpenFont(face) => Open(c, face)
    case CloseFont(k) => Close(c, k)
    case Draw(k, cp) => Lookup(c, k, cp).0
  }

  ghost predicate Linked(steps: seq<Step>, states: seq<Cache>, i: int)
    requires |states| == |steps| + 1 && 0 <= i < |steps|
  {
    Enabled(states[i], steps[i]) && states[i + 1] == Next(states[i], steps[i])
  }

  ghost predicate IsRun(steps: seq<Step>, states: seq<Cache>) {
    && |states| == |steps| + 1 && states[0] == Cache([], 0)
    && forall i | 0 <= i < |steps| :: Linked(steps, states, i)
  }

  /** After any sequence of opens, lookups and closes, no table holds a code point twice, every
      entry is the face's own glyph and reachable from its home slot, and the byte count is the
      sum over all open fonts, within the budget. */
  lemma {:induction false} RunInv(steps: seq<Step>, states: seq<Cache>, n: nat)
    requires IsRun(steps, states) && n <= |steps|
    ensures Inv(states[n])
  {
    if n > 0 {
      RunInv(steps, states, n - 1);
      assert Linked(steps, states, n - 1);
      match steps[n - 1]
      case OpenFont(face) => OpenKeeps(states[n - 1], face);
      case CloseFont(k) => CloseKeeps(states[n - 1], k);
      case Draw(k, cp) => LookupIsFresh(states[n - 1], k, cp);
    }
  }

  /** The cache is transparent over whole runs. */
  lemma CacheIsTransparent(steps: seq<Step>, states: seq<Cache>, n: nat, k: nat, cp: int)
    requires IsRun(steps, states) && n <= |steps| && k < |states[n].fonts|
    ensures |states[n].fonts[k].slots| == SLOT_COUNT
    ensures var face := states[n].fonts[k].face;
            Lookup(states[n], k, cp).1 == Ideal(face, Pick(face, cp))
  {
    RunInv(steps, states, n);
    LookupIsFresh(states[n], k, cp);
  }

  /** A lookup answers with the glyph of the code point itself when the face has it, else with that of
      U+FFFD when the face has that, else with the question mark's; with none when its coverage is larger
      than the cache. */
  lemma GlyphShown(steps: seq<Step>, states: seq<Cache>, n: nat, k: nat, cp: int)
    requires IsRun(steps, states) && n <= |steps| && k < |states[n].fonts|
    ensures |states[n].fonts[k].slots| == SLOT_COUNT
    ensures var face, a := states[n].fonts[k].face, Lookup(states[n], k, cp).1;
            var shown := if face.has(cp) then cp else if face.has(0xfffd) then 0xfffd else '?' as int;
            var r := face.raster(shown);
            if r.w * r.h <= 2 * 1024 * 1024 then
              a.Found? && a.g.cp == shown && a.g.raster == r && a.g.advance == face.advance(shown)
            else a.NoGlyph?
  {
    CacheIsTransparent(steps, states, n, k, cp);
  }

  /** The lookups of a text, one after another; each may clear what earlier ones stored. */
  ghost function LookupAll(c: Cache, k: nat, cps: seq<int>): (r: (Cache, seq<Answer>))
    requires Inv(c) && k < |c.fonts|
    ensures Inv(r.0) && SameFaces(c, r.0) && |r.1| == |cps|
  {
    if cps == [] then (c, [])
    else
      var n := |cps| - 1;
      var (d, answers) := LookupAll(c, k, cps[..n]);
      LookupIsFresh(d, k, cps[n]);
      var (e, a) := Lookup(d, k, cps[n]);
      (e, answers + [a])
  }

  lemma {:induction false} LookupsAreFresh(c: Cache, k: nat, cps: seq<int>, i: nat)
    requires Inv(c) && k < |c.fonts| && i < |cps|
    ensures var face := c.fonts[k].face; LookupAll(c, k, cps).1[i] == Ideal(face, Pick(face, cps[i]))
  {
    hide Inv, Lookup, Pick, Ideal;
    var n := |cps| - 1;
    if i < n { LookupsAreFresh(c, k, cps[..n], i); }
    LookupIsFresh(LookupAll(c, k, cps[..n]).0, k, cps[n]);
  }

  /** So is a whole text's drawing: wherever in a run it happens, and however often a table is cleared
      on the way, the glyphs it gets are the face's own. */
  lemma TextIsTransparent(steps: seq<Step>, states: seq<Cache>, n: nat, k: nat, cps: seq<int>, i: nat)
    requires IsRun(steps, states) && n <= |steps| && k < |states[n].fonts| && i < |cps|
    ensures Inv(states[n])
    ensures var face := states[n].fonts[k].face;
            LookupAll(states[n], k, cps).1[i] == Ideal(face, Pick(face, cps[i]))
  {
    RunInv(steps, states, n);
    LookupsAreFresh(states[n], k, cps, i);
  }
}
