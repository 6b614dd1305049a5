/**
  The glyph cache of a font, written in place. What FreeType renders for a character is a parameter of the
  call. The font's atlases are held as values, numbered as they are created.
 */
module FontCache {
  import opened Prelude
  import opened Guillotine
  import opened Bytes
  import opened AtlasState
  import opened GlyphTable

  const ATLAS_WIDTH: nat := 256
  const ATLAS_HEIGHT: nat := 256

  /** What `FT_Load_Char` leaves in the glyph slot. */
  datatype Rendering =
    | LoadError
    | Rendering(width: nat, rows: nat, advanceX: int, advanceY: int, left: int, top: int, buffer: Option<seq<Byte>>)

  ghost predicate RenderingOk(r: Rendering) {
    r.Rendering? ==> Enough(1, r.width, r.rows, r.buffer)
  }

  class Font {
    var glyphCache: Pages
    var cacheMaxPageID: int
    var atlases: seq<Option<nat>>
    var states: seq<State>
    var nextAtlas: nat
    ghost var stamps: seq<seq<Stamp>>
    ghost var anchor: map<nat, Anchor>

    ghost function Book(): Ledger
      reads this
    {
      Ledger(atlases, states, stamps, anchor)
    }

    ghost predicate BookOk()
      reads this
    {
      && LedgerOk(Book())
      && forall i :: 0 <= i < ATLAS_MAX && atlases[i].Some? ==>
           && atlases[i].value < nextAtlas && states[i].ps == 1 && states[i].width == 256 && states[i].height == 256
    }

    ghost predicate Valid()
      reads this
    {
      BookOk() && cacheMaxPageID + 1 == |glyphCache| && TableOk(glyphCache, Book())
    }

    constructor ()
      ensures Valid()
      ensures forall gid: nat :: At(glyphCache, gid) == BLANK
    {
      glyphCache, cacheMaxPageID := [], -1;
      atlases := [None, None, None, None];
      states := seq(ATLAS_MAX, _ => State(0, 0, 0, Free(Rect(0, 0, 0, 0)), []));
      nextAtlas := 0;
      stamps, anchor := [[], [], [], []], map[];
    }

    /** `fntPrepareGlyphCachePage`: extends the page table with missing pages and allocates the one asked for. */
    method PreparePage(pageid: nat)
      requires Valid()
      modifies this`glyphCache, this`cacheMaxPageID
      ensures Valid()
      ensures pageid < |glyphCache| && glyphCache[pageid] != []
      ensures forall gid: nat :: At(glyphCache, gid) == At(old(glyphCache), gid)
    {
      ghost var pages := glyphCache;
      if pageid > cacheMaxPageID {
        glyphCache := glyphCache + seq(pageid - cacheMaxPageID, _ => []);
        cacheMaxPageID := pageid;
      }
      if glyphCache[pageid] == [] {
        glyphCache := glyphCache[pageid := seq(PAGE_SIZE, _ => BLANK)];
      }
      PreparedAt(pages, pageid, 0);
      forall gid: nat
        ensures At(glyphCache, gid) == At(pages, gid)
      {
        PreparedAt(pages, pageid, gid);
      }
    }

    /** An unused slot gets an atlas. */
    method Open(aid: nat)
      requires BookOk() && aid < ATLAS_MAX && atlases[aid].None?
      modifies this`atlases, this`states, this`nextAtlas, this`stamps
      ensures BookOk() && Opened(old(Book()), Book(), aid)
    {
      var st := State(ATLAS_WIDTH, ATLAS_HEIGHT, 1, Free(Rect(0, 0, ATLAS_WIDTH, ATLAS_HEIGHT)),
        Zeros(ATLAS_WIDTH * ATLAS_HEIGHT));
      FreshIsLegible(ATLAS_WIDTH, ATLAS_HEIGHT, 1, st.mem);
      ghost var l := Book();
      atlases, states, nextAtlas := atlases[aid := Some(nextAtlas)], states[aid := st], nextAtlas + 1;
      stamps := stamps[aid := []];
      OpeningIsSafe(l, Book(), aid);
    }

    /** The atlas of a slot is offered a bitmap. */
    method Offer(aid: nat, w: nat, h: nat, buffer: Option<seq<Byte>>) returns (box: Option<Rect>)
      requires BookOk() && Offerable(Book(), aid, w, h, buffer)
      modifies this`states, this`stamps
      ensures BookOk() && Book() == Offered(old(Book()), aid, w, h, buffer)
      ensures box == PlaceBitmap(old(states[aid]), w, h, buffer).box
    {
      ghost var l := Book();
      OfferingIsSafe(l, aid, w, h, buffer);
      var r := PlaceBitmap(states[aid], w, h, buffer);
      states := states[aid := r.state];
      if r.box.Some? {
        stamps := stamps[aid := stamps[aid] + [Stamp(r.box.value, buffer.value)]];
      }
      box := r.box;
      assert Book() == Offered(l, aid, w, h, buffer);
    }

    /** `fntGlyphAtlasPlace`: the first of the four atlases with room; unused slots get an atlas on the way. */
    method Search(w: nat, h: nat, buffer: Option<seq<Byte>>) returns (aid: nat, box: Option<Rect>)
      requires BookOk() && Enough(1, w, h, buffer)
      modifies this`atlases, this`states, this`nextAtlas, this`stamps
      ensures BookOk() && Grew(old(Book()), Book())
      ensures box.None? ==> Searched(old(Book()), Book(), ATLAS_MAX, w, h, buffer)
      ensures box.Some? ==>
        && buffer.Some? && box.value.w == w + 1 && box.value.h == h + 1
        && Stamped(old(Book()), Book(), aid, Stamp(box.value, buffer.value))
        && forall j :: 0 <= j < aid ==> Full(Book(), j, w, h)
    {
      ghost var start := Book();
      aid := 0;
      while aid < ATLAS_MAX
        invariant BookOk() && Searched(start, Book(), aid, w, h, buffer)
      {
        if atlases[aid].None? {
          ghost var l := Book();
          Open(aid);
          SearchOpens(start, l, Book(), aid, w, h, buffer);
        }
        assert Legible(states[aid], stamps[aid]);
        SearchOffers(start, Book(), aid, w, h, buffer);
        box := Offer(aid, w, h, buffer);
        if box.Some? {
          return;
        }
        aid := aid + 1;
      }
      box := None;
    }

    /** The entry that caching a rendering leaves: its size, and unless it is empty the bitmap it stands for. */
    ghost predicate CachedAs(gid: nat, g: Glyph, r: Rendering)
      requires LedgerOk(Book())
      reads this
    {
      && r.Rendering? && g.isValid && g.width == r.width && g.height == r.rows
      && g.metrics == Metrics(r.advanceX, r.advanceY, r.left, -r.top)
      && (r.width > 0 && r.rows > 0 ==>
            r.buffer.Some? && Anchored(Book(), gid, g) && StampOf(Book(), gid).data == r.buffer.value)
    }

    /** A rendering that cannot be cached. */
    ghost predicate Refused(r: Rendering)
      requires Shaped(Book())
      reads this
    {
      || r.LoadError?
      || (r.width > 0 && r.rows > 0
        && (r.buffer.None? || forall i :: 0 <= i < ATLAS_MAX ==> Full(Book(), i, r.width, r.rows)))
    }

    /**
      `fntCacheGlyph`. A valid entry is returned as it is. Otherwise the character is rendered and, unless its
      bitmap is empty, placed; it fails only when it cannot be rendered or no atlas takes the bitmap.
     */
    method CacheGlyph(gid: nat, r: Rendering) returns (out: Option<Glyph>)
      requires Valid() && RenderingOk(r)
      modifies this
      ensures Valid()
      ensures forall other: nat :: other != gid ==> At(glyphCache, other) == At(old(glyphCache), other)
      ensures out == if At(glyphCache, gid).isValid then Some(At(glyphCache, gid)) else None
      ensures out.None? ==> At(glyphCache, gid) == At(old(glyphCache), gid) && Refused(r)
      ensures if At(old(glyphCache), gid).isValid then At(glyphCache, gid) == At(old(glyphCache), gid)
              else out.Some? ==> CachedAs(gid, out.value, r)
    {
      var p := gid / PAGE_SIZE;
      if !(p <= cacheMaxPageID && glyphCache[p] != []) {
        PreparePage(p);
      }
      var g := glyphCache[p][gid % PAGE_SIZE];
      assert g == At(glyphCache, gid);
      out := None;
      if g.isValid {
        out := Some(g);
      } else if r.Rendering? {
        out := CacheNew(gid, r);
      }
    }

    method CacheNew(gid: nat, r: Rendering) returns (out: Option<Glyph>)
      requires Valid() && RenderingOk(r) && r.Rendering?
      requires gid / PAGE_SIZE < |glyphCache| && glyphCache[gid / PAGE_SIZE] != [] && !At(glyphCache, gid).isValid
      modifies this
      ensures Valid()
      ensures forall other: nat :: other != gid ==> At(glyphCache, other) == At(old(glyphCache), other)
      ensures out.Some? ==> At(glyphCache, gid) == out.value && CachedAs(gid, out.value, r)
      ensures out.None? ==> At(glyphCache, gid) == At(old(glyphCache), gid) && Refused(r)
    {
      out := Some(Glyph(true, r.width, r.rows, Metrics(r.advanceX, r.advanceY, r.left, -r.top), None, None));
      if r.width > 0 && r.rows > 0 {
        out := PlaceNew(gid, r);
      }
      if out.Some? {
        StoreKeepsTable(glyphCache, Book(), gid, out.value);
        var p := gid / PAGE_SIZE;
        glyphCache := glyphCache[p := glyphCache[p][gid % PAGE_SIZE := out.value]];
      }
    }

    /** Finds a place for the bitmap of a character and makes the stamp its own. */
    method PlaceNew(gid: nat, r: Rendering) returns (out: Option<Glyph>)
      requires Valid() && RenderingOk(r) && r.Rendering? && r.width > 0 && r.rows > 0 && !At(glyphCache, gid).isValid
      modifies this`atlases, this`states, this`nextAtlas, this`stamps, this`anchor
      ensures Valid()
      ensures out.Some? ==> CachedAs(gid, out.value, r)
      ensures out.None? ==> Refused(r)
    {
      ghost var l := Book();
      var aid, box := Search(r.width, r.rows, r.buffer);
      GrowthKeepsGlyphs(glyphCache, l, Book());
      out := None;
      if box.Some? {
        NewestIsNobodys(l, Book(), aid, Stamp(box.value, r.buffer.value));
        var g := Seat(gid, r, aid, box.value);
        out := Some(g);
      }
    }

    /** Makes the newest stamp of an atlas a character's own. */
    method Seat(gid: nat, r: Rendering, aid: nat, box: Rect) returns (g: Glyph)
      requires Valid() && r.Rendering? && r.buffer.Some? && !At(glyphCache, gid).isValid
      requires aid < ATLAS_MAX && atlases[aid].Some? && |stamps[aid]| > 0
      requires box.w == r.width + 1 && box.h == r.rows + 1
      requires stamps[aid][|stamps[aid]| - 1] == Stamp(box, r.buffer.value)
      requires forall h :: h in anchor ==> anchor[h] != Anchor(aid, |stamps[aid]| - 1)
      modifies this`anchor
      ensures Valid() && CachedAs(gid, g, r)
    {
      g := Glyph(true, r.width, r.rows, Metrics(r.advanceX, r.advanceY, r.left, -r.top), atlases[aid],
        Some(Corner(box.x, box.y)));
      SeatKeepsTable(glyphCache, Book(), gid, aid, g);
      anchor := Seated(Book(), gid, aid).anchor;
    }

    /** `fntCacheFlush`: all entries, pages and atlases are given up together. */
    method Flush()
      requires Valid()
      modifies this
      ensures Valid()
      ensures forall gid: nat :: At(glyphCache, gid) == BLANK
      ensures forall i :: 0 <= i < ATLAS_MAX ==> atlases[i].None?
    {
      glyphCache, cacheMaxPageID := [], -1;
      for aid := 0 to ATLAS_MAX
        invariant glyphCache == [] && cacheMaxPageID == -1 && |atlases| == |states| == |stamps| == ATLAS_MAX
        invariant forall i :: 0 <= i < aid ==> atlases[i].None?
      {
        atlases := atlases[aid := None];
      }
      anchor := map[];
    }
  }
}
