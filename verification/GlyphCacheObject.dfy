/** The glyph cache as the source writes it: font objects on a list of open fonts and one running
    byte count, proved to compute what GlyphCache describes. */
module GlyphCacheObject {
  import opened G = GlyphCache

  class FontObject {
    const face: Face
    var slots: seq<Slot>

    constructor (face: Face)
      ensures this.face == face && slots == EmptyTable()
    {
      this.face := face;
      slots := seq(SLOT_COUNT, _ => Free);
    }
  }

  ghost function Snapshot(fonts: seq<FontObject>): (r: seq<Font>)
    reads fonts
    ensures |r| == |fonts| && forall i | 0 <= i < |fonts| :: r[i] == Font(fonts[i].face, fonts[i].slots)
  {
    seq(|fonts|, i requires 0 <= i < |fonts| reads fonts => Font(fonts[i].face, fonts[i].slots))
  }

  lemma SnapshotWithout(fonts: seq<FontObject>, k: nat, rest: seq<FontObject>)
    requires k < |fonts| && rest == fonts[..k] + fonts[k + 1..]
    ensures Snapshot(rest) == Snapshot(fonts)[..k] + Snapshot(fonts)[k + 1..]
  {
    var all := Snapshot(fonts);
    forall i | 0 <= i < |rest| ensures Snapshot(rest)[i] == (all[..k] + all[k + 1..])[i] {
      assert rest[i] == fonts[if i < k then i else i + 1];
    }
  }

  class FontLibrary {
    var fonts: seq<FontObject>
    var cacheTotal: int

    ghost function State(): Cache
      reads this, fonts
    {
      Cache(Snapshot(fonts), cacheTotal)
    }

    ghost predicate Valid()
      reads this, fonts
    {
      && (forall i, j | 0 <= i < j < |fonts| :: fonts[i] != fonts[j])
      && (forall i | 0 <= i < |fonts| :: |fonts[i].slots| == SLOT_COUNT)
    }

    constructor ()
      ensures Valid() && State() == Cache([], 0)
    {
      fonts, cacheTotal := [], 0;
    }

    method OpenFont(face: Face) returns (f: FontObject)
      requires Valid()
      modifies this
      ensures Valid() && fresh(f) && fonts == [f] + old(fonts) && State() == Open(old(State()), face)
    {
      f := new FontObject(face);
      fonts := [f] + fonts;
      assert State().fonts == Open(old(State()), face).fonts;
    }

    method ClearCache(f: FontObject)
      requires |f.slots| == SLOT_COUNT
      modifies f, this`cacheTotal
      ensures f.slots == EmptyTable() && cacheTotal == old(cacheTotal) - TableBytes(old(f.slots), SLOT_COUNT)
    {
      for i := 0 to SLOT_COUNT
        invariant f.slots == old(f.slots)
        invariant cacheTotal == old(cacheTotal) - TableBytes(f.slots, i)
      {
        if f.slots[i].Used? && Area(f.slots[i].g.raster) > 0 {
          cacheTotal := cacheTotal - f.slots[i].g.raster.w * f.slots[i].g.raster.h;
        }
      }
      f.slots := seq(SLOT_COUNT, _ => Free);
    }

    method ClearOpen(f: FontObject, k: nat)
      requires Valid() && k < |fonts| && fonts[k] == f
      modifies f, this`cacheTotal
      ensures Valid() && State() == ClearFont(old(State()), k)
    {
      ClearCache(f);
      assert State().fonts == ClearFont(old(State()), k).fonts;
    }

    /** The place of `f` on the list. */
    method Locate(f: FontObject) returns (k: nat)
      requires f in fonts
      ensures k < |fonts| && fonts[k] == f
    {
      k := 0;
      while fonts[k] != f
        invariant k < |fonts| && f !in fonts[..k]
        decreases |fonts| - k
      {
        k := k + 1;
      }
    }

    method CloseFont(f: FontObject) returns (ghost k: nat)
      requires Valid() && f in fonts
      modifies f, this
      ensures k < |old(fonts)| && old(fonts)[k] == f && Valid() && f !in fonts
      ensures State() == Close(old(State()), k)
    {
      var link := Locate(f);
      k := link;
      Unlink(link);
      ClearCache(f);
    }

    method Unlink(k: nat)
      requires Valid() && k < |fonts|
      modifies this`fonts
      ensures Valid() && old(fonts)[k] !in fonts && fonts == old(fonts[..k] + fonts[k + 1..])
      ensures Snapshot(fonts) == old(Snapshot(fonts)[..k] + Snapshot(fonts)[k + 1..])
    {
      SnapshotWithout(fonts, k, fonts[..k] + fonts[k + 1..]);
      ghost var all := fonts;
      fonts := fonts[..k] + fonts[k + 1..];
      assert forall i | 0 <= i < |fonts| :: fonts[i] == all[if i < k then i else i + 1];
    }

    method ClearEvery()
      requires Valid()
      modifies fonts, this`cacheTotal
      ensures Valid() && State() == ClearAll(old(State()))
    {
      ghost var start := State();
      for n := 0 to |fonts|
        invariant Valid() && |start.fonts| == |fonts| && State() == ClearBelow(start, n)
      {
        ClearBelowStep(start, n);
        ClearOpen(fonts[n], n);
      }
    }

    method StoreGlyph(f: FontObject, ghost k: nat, i: int, g: Glyph)
      requires Valid() && k < |fonts| && fonts[k] == f && 0 <= i < SLOT_COUNT
      modifies f, this`cacheTotal
      ensures Valid() && State() == Store(old(State()), k, i, g)
    {
      f.slots := f.slots[i := Used(g)];
      cacheTotal := cacheTotal + g.raster.w * g.raster.h;
      assert State().fonts == Store(old(State()), k, i, g).fonts;
    }

    method Rasterise(f: FontObject, ghost k: nat, cp: int, vacancy: int) returns (a: Answer)
      requires Valid() && k < |fonts| && fonts[k] == f && 0 <= vacancy < SLOT_COUNT
      modifies fonts, this`cacheTotal
      ensures Valid() && (State(), a) == Miss(old(State()), k, cp, vacancy)
    {
      var slot := vacancy;
      var bytes := Area(f.face.raster(cp));
      if bytes > CACHE_LIMIT { return NoGlyph; }
      if cacheTotal + bytes > CACHE_LIMIT {
        ClearEvery();
        slot := Home(cp);
      }
      var g := Fresh(f.face, cp);
      StoreGlyph(f, k, slot, g);
      a := Found(g);
    }

    /** Probes the table of `f`: the slot that holds `cp`, the first vacancy, or neither. */
    method ProbeTable(f: FontObject, cp: int) returns (slot: int, used: bool, full: bool)
      requires |f.slots| == SLOT_COUNT
      ensures 0 <= slot < SLOT_COUNT
      ensures match Search(f.slots, cp, 0)
              case Hit(d) => used && !full && slot == Around(Home(cp), d)
              case Vacant(d) => !used && !full && slot == Around(Home(cp), d)
              case Full => !used && full && slot == Home(cp)
    {
      slot, used, full := Home(cp), false, false;
      for i := 0 to SLOT_COUNT
        invariant slot == Around(Home(cp), i) && !used && !full
        invariant Search(f.slots, cp, 0) == Search(f.slots, cp, i)
      {
        if f.slots[slot].Free? { return; }
        if f.slots[slot].g.cp == cp { return slot, true, false; }
        StepAround(Home(cp), i);
        slot := (slot + 1) % SLOT_COUNT;
      }
      full := true;
    }

    method Lookup(f: FontObject, k: nat, text: int) returns (a: Answer)
      requires Valid() && k < |fonts| && fonts[k] == f
      modifies fonts, this`cacheTotal
      ensures Valid() && (State(), a) == G.Lookup(old(State()), k, text)
    {
      var cp := Pick(f.face, text);
      var slot, used, full := ProbeTable(f, cp);
      if used { return Found(f.slots[slot].g); }
      if full { ClearOpen(f, k); }
      a := Rasterise(f, k, cp, slot);
    }
  }
}
