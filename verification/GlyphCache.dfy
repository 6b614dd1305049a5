/**
  The glyph table of a font and the atlases it draws on, as values: what entries of src/fntsys.c mean, and
  why caching more glyphs never disturbs the ones cached before.
 */
module GlyphTable {
  import opened Prelude
  import opened Guillotine
  import opened Bytes
  import opened AtlasState

  const ATLAS_MAX: nat := 4
  const PAGE_SIZE: nat := 256

  /** An atlas is named by a number that no two atlases share; an allocation by its top left corner. */
  datatype Glyph = Glyph(isValid: bool, width: nat, height: nat, metrics: Metrics, atlas: Option<nat>,
      allocation: Option<Corner>)

  /** How far the pen moves, and where the bitmap stands relative to it. */
  datatype Metrics = Metrics(shx: int, shy: int, ox: int, oy: int)

  datatype Corner = Corner(x: int, y: int)

  const BLANK: Glyph := Glyph(false, 0, 0, Metrics(0, 0, 0, 0), None, None)

  /** A page never asked for is the empty sequence. */
  type Pages = seq<seq<Glyph>>

  ghost predicate PagesOk(pages: Pages) {
    forall p :: 0 <= p < |pages| ==> |pages[p]| == 0 || |pages[p]| == PAGE_SIZE
  }

  /** The cached entry of a character; blank when its page was never prepared. */
  ghost function At(pages: Pages, gid: nat): Glyph
    requires PagesOk(pages)
  {
    var p := gid / PAGE_SIZE;
    if p < |pages| && pages[p] != [] then pages[p][gid % PAGE_SIZE] else BLANK
  }

  /** An atlas slot, and the number of a stamp in that atlas. */
  datatype Anchor = Anchor(slot: nat, stamp: nat)

  /** The atlas slots, what each holds, the bitmaps stamped into each, and which stamp each character owns. */
  datatype Ledger = Ledger(
    atlases: seq<Option<nat>>, states: seq<State>, stamps: seq<seq<Stamp>>, anchor: map<nat, Anchor>)

  ghost predicate Shaped(l: Ledger) {
    |l.atlases| == |l.states| == |l.stamps| == ATLAS_MAX
  }

  ghost predicate LedgerOk(l: Ledger) {
    && Shaped(l)
    && (forall i :: 0 <= i < ATLAS_MAX && l.atlases[i].Some? ==> Legible(l.states[i], l.stamps[i]))
    && (forall i, j :: 0 <= i < j < ATLAS_MAX && l.atlases[i].Some? ==> l.atlases[i] != l.atlases[j])
    && (forall g :: g in l.anchor ==>
          && l.anchor[g].slot < ATLAS_MAX && l.atlases[l.anchor[g].slot].Some?
          && l.anchor[g].stamp < |l.stamps[l.anchor[g].slot]|)
    && (forall g, g' :: g in l.anchor && g' in l.anchor && g != g' ==> l.anchor[g] != l.anchor[g'])
  }

  ghost function StampOf(l: Ledger, gid: nat): Stamp
    requires LedgerOk(l) && gid in l.anchor
  {
    l.stamps[l.anchor[gid].slot][l.anchor[gid].stamp]
  }

  ghost function BoxOf(g: Glyph): Rect
    requires g.allocation.Some?
  {
    Rect(g.allocation.value.x, g.allocation.value.y, g.width + 1, g.height + 1)
  }

  /** The glyph stands where its stamp stands, in an atlas the font still owns. */
  ghost predicate Anchored(l: Ledger, gid: nat, g: Glyph)
    requires LedgerOk(l)
  {
    && gid in l.anchor && g.allocation.Some?
    && l.atlases[l.anchor[gid].slot] == g.atlas
    && StampOf(l, gid).rect == BoxOf(g)
  }

  ghost predicate GlyphOk(l: Ledger, gid: nat, g: Glyph)
    requires LedgerOk(l)
  {
    if !g.isValid then g.atlas.None? && g.allocation.None?
    else if g.allocation.None? then g.atlas.None? && (g.width == 0 || g.height == 0)
    else Anchored(l, gid, g)
  }

  ghost predicate TableOk(pages: Pages, l: Ledger) {
    PagesOk(pages) && LedgerOk(l) && forall gid: nat :: GlyphOk(l, gid, At(pages, gid))
  }

  ghost predicate Drawn(g: Glyph) {
    g.isValid && g.allocation.Some?
  }

  /** Two valid glyphs in the same atlas share no pixel, and no valid glyph refers to a freed atlas. */
  lemma GlyphsDoNotOverlap(pages: Pages, l: Ledger, g1: nat, g2: nat)
    requires TableOk(pages, l) && g1 != g2 && Drawn(At(pages, g1)) && Drawn(At(pages, g2))
    ensures At(pages, g1).atlas in l.atlases && At(pages, g2).atlas in l.atlases
    ensures At(pages, g1).atlas == At(pages, g2).atlas ==> Disjoint(BoxOf(At(pages, g1)), BoxOf(At(pages, g2)))
  {
    var a, b := At(pages, g1), At(pages, g2);
    assert GlyphOk(l, g1, a) && GlyphOk(l, g2, b);
    var x, y := l.anchor[g1], l.anchor[g2];
    if a.atlas == b.atlas {
      assert x.slot == y.slot;
      var boxes := Boxes(l.stamps[x.slot]);
      assert Legible(l.states[x.slot], l.stamps[x.slot]);
      assert PairwiseDisjoint(boxes);
      assert if x.stamp < y.stamp then Disjoint(boxes[x.stamp], boxes[y.stamp])
        else Disjoint(boxes[y.stamp], boxes[x.stamp]);
    }
  }

  /** The pixels of a valid glyph, read back from its atlas, are the bitmap it was stamped with. */
  lemma GlyphIsLegible(pages: Pages, l: Ledger, gid: nat)
    requires TableOk(pages, l) && Drawn(At(pages, gid))
    ensures Anchored(l, gid, At(pages, gid))
    ensures var st := l.states[l.anchor[gid].slot];
            StateOk(st) && Shown(st.mem, st.ps, st.width, st.height, StampOf(l, gid))
  {
    assert GlyphOk(l, gid, At(pages, gid));
    assert Legible(l.states[l.anchor[gid].slot], l.stamps[l.anchor[gid].slot]);
  }

  // ----- What the operations do to the ledger -----

  /** An empty slot received a fresh atlas. */
  ghost predicate Opened(l: Ledger, l': Ledger, i: nat) {
    && Shaped(l) && Shaped(l') && i < ATLAS_MAX && l.atlases[i].None?
    && l'.atlases[i].Some? && l'.atlases[i] !in l.atlases && Legible(l'.states[i], [])
    && l' == Ledger(l.atlases[i := l'.atlases[i]], l.states[i := l'.states[i]], l.stamps[i := []], l.anchor)
  }

  ghost predicate Offerable(l: Ledger, i: nat, w: nat, h: nat, surface: Option<seq<Byte>>) {
    Shaped(l) && i < ATLAS_MAX && l.atlases[i].Some? && StateOk(l.states[i]) && Enough(l.states[i].ps, w, h, surface)
  }

  /** The atlas of a slot is offered a bitmap and, unless it refuses, has one stamp more. */
  ghost function Offered(l: Ledger, i: nat, w: nat, h: nat, surface: Option<seq<Byte>>): Ledger
    requires Offerable(l, i, w, h, surface)
  {
    var r := PlaceBitmap(l.states[i], w, h, surface);
    l.(states := l.states[i := r.state],
       stamps := if r.box.None? then l.stamps else l.stamps[i := l.stamps[i] + [Stamp(r.box.value, surface.value)]])
  }

  /** Slots keep their atlases, and atlases keep their stamps. */
  ghost predicate Grew(l: Ledger, l': Ledger) {
    && Shaped(l) && Shaped(l') && l'.anchor == l.anchor
    && forall i :: 0 <= i < ATLAS_MAX && l.atlases[i].Some? ==>
         l'.atlases[i] == l.atlases[i] && l.stamps[i] <= l'.stamps[i]
  }

  lemma OpeningIsSafe(l: Ledger, l': Ledger, i: nat)
    requires LedgerOk(l) && Opened(l, l', i)
    ensures LedgerOk(l') && Grew(l, l')
  {
  }

  /** The slot's atlas has no room for a bitmap of this size. */
  ghost predicate Full(l: Ledger, i: nat, w: nat, h: nat)
    requires Shaped(l) && i < ATLAS_MAX
  {
    l.atlases[i].Some? && !HasRoom(l.states[i].tree, w + 1, h + 1)
  }

  lemma OfferingIsSafe(l: Ledger, i: nat, w: nat, h: nat, surface: Option<seq<Byte>>)
    requires LedgerOk(l) && Offerable(l, i, w, h, surface)
    ensures var r, l' := PlaceBitmap(l.states[i], w, h, surface), Offered(l, i, w, h, surface);
            && LedgerOk(l') && Grew(l, l')
            && (r.box.None? <==> surface.None? || Full(l, i, w, h))
            && (r.box.None? ==> l' == l)
            && (r.box.Some? ==> r.box.value.w == w + 1 && r.box.value.h == h + 1)
            && (r.box.Some? ==> l'.stamps[i] == l.stamps[i] + [Stamp(r.box.value, surface.value)])
  {
    var st, ss := l.states[i], l.stamps[i];
    assert Legible(st, ss);
    PlacingIsSafe(st, ss, w, h, surface);
    var r, l' := PlaceBitmap(st, w, h, surface), Offered(l, i, w, h, surface);
    if r.box.None? {
      assert l' == l;
    } else {
      RestampingIsSafe(l, i, r.state, ss + [Stamp(r.box.value, surface.value)]);
    }
  }

  /** One atlas changes and shows more than before. */
  lemma RestampingIsSafe(l: Ledger, i: nat, st: State, ss: seq<Stamp>)
    requires LedgerOk(l) && i < ATLAS_MAX && Legible(st, ss) && l.stamps[i] <= ss
    ensures var l' := l.(states := l.states[i := st], stamps := l.stamps[i := ss]);
            LedgerOk(l') && Grew(l, l')
  {
  }

  /** Slot `i` ends in a stamp that `before` does not have. */
  ghost predicate Stamped(before: Ledger, l: Ledger, i: nat, s: Stamp) {
    && Shaped(before) && Shaped(l) && i < ATLAS_MAX && l.atlases[i].Some?
    && |l.stamps[i]| > 0 && l.stamps[i][|l.stamps[i]| - 1] == s
    && (before.atlases[i].Some? ==> |before.stamps[i]| < |l.stamps[i]|)
  }

  /** What a search has reached: slots below `i` are full. */
  ghost predicate Searched(before: Ledger, l: Ledger, i: nat, w: nat, h: nat, surface: Option<seq<Byte>>) {
    && LedgerOk(l) && Grew(before, l) && i <= ATLAS_MAX
    && (surface.Some? ==> forall j :: 0 <= j < i ==> Full(l, j, w, h))
  }

  lemma SearchOpens(before: Ledger, l: Ledger, l': Ledger, i: nat, w: nat, h: nat, surface: Option<seq<Byte>>)
    requires Searched(before, l, i, w, h, surface) && Opened(l, l', i)
    ensures Searched(before, l', i, w, h, surface)
  {
    OpeningIsSafe(l, l', i);
    GrowthComposes(before, l, l');
    assert forall j :: 0 <= j < i && Full(l, j, w, h) ==> Full(l', j, w, h);
  }

  lemma SearchOffers(before: Ledger, l: Ledger, i: nat, w: nat, h: nat, surface: Option<seq<Byte>>)
    requires Searched(before, l, i, w, h, surface) && Offerable(l, i, w, h, surface)
    ensures var r, l' := PlaceBitmap(l.states[i], w, h, surface), Offered(l, i, w, h, surface);
            && LedgerOk(l') && Grew(before, l')
            && (r.box.None? ==> Searched(before, l', i + 1, w, h, surface))
            && (r.box.Some? ==> r.box.value.w == w + 1 && r.box.value.h == h + 1)
            && (r.box.Some? ==> surface.Some? && Stamped(before, l', i, Stamp(r.box.value, surface.value)))
            && (surface.Some? ==> forall j :: 0 <= j < i ==> Full(l', j, w, h))
  {
    OfferingIsSafe(l, i, w, h, surface);
    assert forall j :: 0 <= j < i && Full(l, j, w, h) ==> Full(Offered(l, i, w, h, surface), j, w, h);
    GrowthComposes(before, l, Offered(l, i, w, h, surface));
  }

  lemma GrowthComposes(a: Ledger, b: Ledger, c: Ledger)
    requires Grew(a, b) && Grew(b, c)
    ensures Grew(a, c)
  {
    forall i | 0 <= i < ATLAS_MAX && a.atlases[i].Some?
      ensures c.atlases[i] == a.atlases[i] && a.stamps[i] <= c.stamps[i]
    {
      assert b.atlases[i] == a.atlases[i];
    }
  }

  lemma GrowthKeepsGlyphs(pages: Pages, l: Ledger, l': Ledger)
    requires TableOk(pages, l) && Grew(l, l') && LedgerOk(l')
    ensures TableOk(pages, l')
  {
    forall gid: nat
      ensures GlyphOk(l', gid, At(pages, gid))
    {
      assert GlyphOk(l, gid, At(pages, gid));
    }
  }

  ghost function Store(pages: Pages, gid: nat, g: Glyph): Pages
    requires PagesOk(pages) && gid / PAGE_SIZE < |pages| && pages[gid / PAGE_SIZE] != []
  {
    pages[gid / PAGE_SIZE := pages[gid / PAGE_SIZE][gid % PAGE_SIZE := g]]
  }

  /** Writing one entry changes the entry of that character alone. */
  lemma StoreAt(pages: Pages, gid: nat, g: Glyph, other: nat)
    requires PagesOk(pages) && gid / PAGE_SIZE < |pages| && pages[gid / PAGE_SIZE] != []
    ensures PagesOk(Store(pages, gid, g))
    ensures At(Store(pages, gid, g), other) == if other == gid then g else At(pages, other)
  {
    assert other / PAGE_SIZE == gid / PAGE_SIZE && other % PAGE_SIZE == gid % PAGE_SIZE ==> other == gid;
  }

  lemma StoreKeepsTable(pages: Pages, l: Ledger, gid: nat, g: Glyph)
    requires TableOk(pages, l) && gid / PAGE_SIZE < |pages| && pages[gid / PAGE_SIZE] != []
    requires GlyphOk(l, gid, g)
    ensures TableOk(Store(pages, gid, g), l)
    ensures forall other: nat :: At(Store(pages, gid, g), other) == if other == gid then g else At(pages, other)
  {
    StoreAt(pages, gid, g, gid);
    forall other: nat
      ensures At(Store(pages, gid, g), other) == if other == gid then g else At(pages, other)
      ensures GlyphOk(l, other, At(Store(pages, gid, g), other))
    {
      StoreAt(pages, gid, g, other);
      assert GlyphOk(l, other, At(pages, other));
    }
  }

  /** A character without a valid entry takes over a stamp that is nobody's. */
  lemma AnchorKeepsTable(pages: Pages, l: Ledger, gid: nat, at: Anchor)
    requires TableOk(pages, l) && !At(pages, gid).isValid
    requires at.slot < ATLAS_MAX && l.atlases[at.slot].Some? && at.stamp < |l.stamps[at.slot]|
    requires forall h :: h in l.anchor ==> l.anchor[h] != at
    ensures TableOk(pages, l.(anchor := l.anchor[gid := at]))
  {
    var l' := l.(anchor := l.anchor[gid := at]);
    assert LedgerOk(l');
    forall other: nat
      ensures GlyphOk(l', other, At(pages, other))
    {
      assert GlyphOk(l, other, At(pages, other));
    }
  }

  /** The newest stamp of a slot becomes a character's own. */
  ghost function Seated(l: Ledger, gid: nat, i: nat): Ledger
    requires Shaped(l) && i < ATLAS_MAX && |l.stamps[i]| > 0
  {
    l.(anchor := l.anchor[gid := Anchor(i, |l.stamps[i]| - 1)])
  }

  lemma SeatKeepsTable(pages: Pages, l: Ledger, gid: nat, i: nat, g: Glyph)
    requires TableOk(pages, l) && !At(pages, gid).isValid
    requires i < ATLAS_MAX && |l.stamps[i]| > 0 && g.allocation.Some? && l.atlases[i].Some?
    requires forall h :: h in l.anchor ==> l.anchor[h] != Anchor(i, |l.stamps[i]| - 1)
    requires g.atlas == l.atlases[i] && l.stamps[i][|l.stamps[i]| - 1].rect == BoxOf(g)
    ensures var l' := Seated(l, gid, i);
            && TableOk(pages, l') && Anchored(l', gid, g)
            && StampOf(l', gid) == l.stamps[i][|l.stamps[i]| - 1]
  {
    AnchorKeepsTable(pages, l, gid, Anchor(i, |l.stamps[i]| - 1));
    SeatIsAnchored(l, gid, i, g);
  }

  lemma SeatIsAnchored(l: Ledger, gid: nat, i: nat, g: Glyph)
    requires Shaped(l) && i < ATLAS_MAX && |l.stamps[i]| > 0 && g.allocation.Some? && LedgerOk(Seated(l, gid, i))
    requires g.atlas == l.atlases[i] && l.stamps[i][|l.stamps[i]| - 1].rect == BoxOf(g)
    ensures var l' := Seated(l, gid, i);
            Anchored(l', gid, g) && StampOf(l', gid) == l.stamps[i][|l.stamps[i]| - 1]
  {
  }

  /** The stamp a search has just made belongs to no character yet. */
  lemma NewestIsNobodys(before: Ledger, l: Ledger, i: nat, s: Stamp)
    requires LedgerOk(before) && Grew(before, l) && Stamped(before, l, i, s)
    ensures forall h :: h in l.anchor ==> l.anchor[h] != Anchor(i, |l.stamps[i]| - 1)
  {
  }

  /** New pages are blank. */
  lemma PreparedAt(pages: Pages, p: nat, gid: nat)
    requires PagesOk(pages)
    ensures var extended := if p < |pages| then pages else pages + seq(p + 1 - |pages|, _ => []);
            var pages' := if extended[p] == [] then extended[p := seq(PAGE_SIZE, _ => BLANK)] else extended;
            PagesOk(pages') && At(pages', gid) == At(pages, gid)
  {
  }
}
