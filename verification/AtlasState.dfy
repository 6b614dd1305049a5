/**
  An atlas as a value: its allocation tree and its pixels, what one `atlasPlace` makes of them, and why the
  bitmaps placed before can still be read back.
 */
module AtlasState {
  import opened Prelude
  import opened Guillotine
  import opened Bytes
  import opened Surface

  datatype PixelFormat = CT32 | CT24 | CT16 | CT16S | T8 | OtherFormat

  function PixelSize(psm: PixelFormat): nat {
    match psm
    case CT32 => 4
    case CT24 => 4
    case CT16 => 2
    case CT16S => 2
    case T8 => 1
    case OtherFormat => 0
  }

  /** Bytes in a pixel: 32 and 24 bits take four, 16 bits two, a palette index one; other formats are unknown. */
  lemma PixelSizes()
    ensures PixelSize(CT32) == 4 && PixelSize(CT24) == 4
    ensures PixelSize(CT16) == 2 && PixelSize(CT16S) == 2
    ensures PixelSize(T8) == 1 && forall psm :: PixelSize(psm) == 0 <==> psm == OtherFormat
  {
  }

  /** A bitmap handed to the atlas and the box allocated for it, one pixel larger each way. */
  datatype Stamp = Stamp(rect: Rect, data: seq<Byte>)

  ghost predicate StampOk(ps: nat, width: nat, height: nat, s: Stamp) {
    && s.rect.x >= 0 && s.rect.y >= 0 && s.rect.w >= 1 && s.rect.h >= 1
    && Within(s.rect, Rect(0, 0, width, height))
    && (s.rect.h - 1) * (ps * (s.rect.w - 1)) <= |s.data|
  }

  function BlockOf(ps: nat, s: Stamp): Block
    requires s.rect.x >= 0 && s.rect.y >= 0 && s.rect.w >= 1 && s.rect.h >= 1
  {
    Block(ps * s.rect.x, s.rect.y, ps * (s.rect.w - 1), s.rect.h - 1, s.data)
  }

  ghost function Boxes(ss: seq<Stamp>): (rs: seq<Rect>)
    ensures |rs| == |ss| && forall i :: 0 <= i < |ss| ==> rs[i] == ss[i].rect
  {
    seq(|ss|, i requires 0 <= i < |ss| => ss[i].rect)
  }

  lemma StampFits(ps: nat, width: nat, height: nat, s: Stamp)
    requires StampOk(ps, width, height, s)
    ensures InSurface(ps * width, height, BlockOf(ps, s))
  {
    assert ps * width == ps * s.rect.x + ps * (s.rect.w - 1) + ps * (width - s.rect.x - (s.rect.w - 1));
  }

  lemma BoxesApart(ps: nat, width: nat, height: nat, a: Stamp, b: Stamp)
    requires StampOk(ps, width, height, a) && StampOk(ps, width, height, b) && Disjoint(a.rect, b.rect)
    ensures Apart(BlockOf(ps, a), BlockOf(ps, b))
  {
    var px := if a.rect.x <= b.rect.x then b.rect.x else a.rect.x;
    var py := if a.rect.y <= b.rect.y then b.rect.y else a.rect.y;
    assert !(In(px, py, a.rect) && In(px, py, b.rect));
    Columns(ps, a.rect.x, a.rect.w - 1, b.rect.x);
    Columns(ps, b.rect.x, b.rect.w - 1, a.rect.x);
  }

  lemma Columns(ps: nat, x: nat, w: nat, x': nat)
    ensures x + w <= x' ==> ps * x + ps * w <= ps * x'
  {
    if x + w <= x' {
      assert ps * x' == ps * x + ps * w + ps * (x' - x - w);
    }
  }

  /** Every stamp stands in the surface and can be read back. */
  ghost predicate AllShown(m: seq<Byte>, ps: nat, width: nat, height: nat, ss: seq<Stamp>)
    requires height * (ps * width) <= |m|
  {
    forall i :: 0 <= i < |ss| ==> Shown(m, ps, width, height, ss[i])
  }

  ghost predicate Shown(m: seq<Byte>, ps: nat, width: nat, height: nat, s: Stamp)
    requires height * (ps * width) <= |m|
  {
    StampOk(ps, width, height, s) && (StampFits(ps, width, height, s); Shows(m, ps * width, height, BlockOf(ps, s)))
  }

  /** Stamping `s` into a box that no earlier stamp shares keeps all of them legible. */
  lemma StampKeeps(m: seq<Byte>, ps: nat, width: nat, height: nat, ss: seq<Stamp>, s: Stamp)
    requires height * (ps * width) <= |m| && AllShown(m, ps, width, height, ss)
    requires StampOk(ps, width, height, s) && InSurface(ps * width, height, BlockOf(ps, s))
    requires forall i :: 0 <= i < |ss| ==> Disjoint(ss[i].rect, s.rect)
    ensures AllShown(CopyRows(m, ps * width, height, BlockOf(ps, s), s.rect.h - 1), ps, width, height, ss + [s])
  {
    var m' := CopyRows(m, ps * width, height, BlockOf(ps, s), s.rect.h - 1);
    forall i | 0 <= i < |ss| + 1
      ensures Shown(m', ps, width, height, (ss + [s])[i])
    {
      if i < |ss| {
        assert Shown(m, ps, width, height, ss[i]);
        StampFits(ps, width, height, ss[i]);
        BoxesApart(ps, width, height, ss[i], s);
        CopyKeeps(m, ps * width, height, BlockOf(ps, s), BlockOf(ps, ss[i]));
      } else {
        CopyIsShown(m, ps * width, height, BlockOf(ps, s));
      }
    }
  }

  lemma LastBox(t: Tree, rs: seq<Rect>, r: Rect, box: Rect)
    requires Consistent(t, rs + [r], box)
    ensures Within(r, box) && forall i :: 0 <= i < |rs| ==> Disjoint(rs[i], r)
  {
    assert (rs + [r])[|rs|] == r;
    forall i | 0 <= i < |rs|
      ensures Disjoint(rs[i], r)
    {
      assert Disjoint((rs + [r])[i], (rs + [r])[|rs|]);
    }
  }

  /** `ps` is the pixel size; zero for a format `pixelSize` does not know. */
  datatype State = State(width: nat, height: nat, ps: nat, tree: Tree, mem: seq<Byte>)

  ghost predicate StateOk(st: State) {
    && ValidTree(st.tree) && st.tree.box == Rect(0, 0, st.width, st.height)
    && st.height * (st.ps * st.width) <= |st.mem|
  }

  /** The pixels after `atlasCopyData`. */
  function Written(st: State, s: Stamp): (m: seq<Byte>)
    requires StateOk(st) && StampOk(st.ps, st.width, st.height, s)
    ensures |m| == |st.mem|
  {
    StampFits(st.ps, st.width, st.height, s);
    if st.ps == 0 then st.mem
    else CopyRows(st.mem, st.ps * st.width, st.height, BlockOf(st.ps, s), s.rect.h - 1)
  }

  lemma WritingIgnoresTree(st: State, tree: Tree, s: Stamp)
    requires StateOk(st) && StateOk(st.(tree := tree)) && StampOk(st.ps, st.width, st.height, s)
    ensures Written(st.(tree := tree), s) == Written(st, s)
  {
  }

  predicate Enough(ps: nat, w: nat, h: nat, surface: Option<seq<Byte>>) {
    surface.Some? ==> h * (ps * w) <= |surface.value|
  }

  datatype Outcome = Outcome(state: State, box: Option<Rect>)

  lemma BoxIsStampable(st: State, w: nat, h: nat, data: seq<Byte>)
    requires StateOk(st) && h * (st.ps * w) <= |data| && Place(st.tree, w + 1, h + 1).rect.Some?
    ensures StampOk(st.ps, st.width, st.height, Stamp(Place(st.tree, w + 1, h + 1).rect.value, data))
  {
    PlaceIsInside(st.tree, w + 1, h + 1);
  }

  /** `atlasPlace`. */
  function PlaceBitmap(st: State, w: nat, h: nat, surface: Option<seq<Byte>>): (r: Outcome)
    requires StateOk(st) && Enough(st.ps, w, h, surface)
    ensures StateOk(r.state)
  {
    if surface.None? then Outcome(st, None)
    else
      var p := Place(st.tree, w + 1, h + 1);
      PlaceKeepsValid(st.tree, w + 1, h + 1);
      if p.rect.None? then Outcome(st, None)
      else
        BoxIsStampable(st, w, h, surface.value);
        Outcome(st.(tree := p.tree, mem := Written(st, Stamp(p.rect.value, surface.value))), p.rect)
  }

  /** The allocator handed out exactly the boxes of `ss`, and every one of these bitmaps can be read back. */
  ghost predicate Legible(st: State, ss: seq<Stamp>) {
    && StateOk(st)
    && Consistent(st.tree, Boxes(ss), Rect(0, 0, st.width, st.height))
    && AllShown(st.mem, st.ps, st.width, st.height, ss)
  }

  /** A fresh atlas shows nothing. */
  lemma FreshIsLegible(width: nat, height: nat, ps: nat, mem: seq<Byte>)
    requires height * (ps * width) <= |mem|
    ensures Legible(State(width, height, ps, Free(Rect(0, 0, width, height)), mem), [])
  {
  }

  /**
    Placing a bitmap leaves those placed before legible and makes the new one legible; it is refused exactly
    when there is no bitmap or no free leaf for it and its one-pixel margin.
   */
  lemma PlacingIsSafe(st: State, ss: seq<Stamp>, w: nat, h: nat, surface: Option<seq<Byte>>)
    requires Legible(st, ss) && Enough(st.ps, w, h, surface)
    ensures var r := PlaceBitmap(st, w, h, surface);
            && (r.box.None? <==> surface.None? || !HasRoom(st.tree, w + 1, h + 1))
            && (r.box.None? ==> r.state == st)
            && (r.box.Some? ==> r.box.value.w == w + 1 && r.box.value.h == h + 1)
            && (r.box.Some? ==> Legible(r.state, ss + [Stamp(r.box.value, surface.value)]))
  {
    var r := PlaceBitmap(st, w, h, surface);
    RefusesExactlyWhenFull(st.tree, w + 1, h + 1);
    if r.box.Some? {
      var s, box := Stamp(r.box.value, surface.value), Rect(0, 0, st.width, st.height);
      PlaceIsInside(st.tree, w + 1, h + 1);
      StepIsConsistent(st.tree, Boxes(ss), box, w + 1, h + 1);
      assert Boxes(ss) + [s.rect] == Boxes(ss + [s]);
      LastBox(r.state.tree, Boxes(ss), s.rect, box);
      BoxIsStampable(st, w, h, surface.value);
      WritingIsShown(st, ss, s);
    }
  }

  /** Byte `k` of pixel `j` of row `i` of a stamp that is shown, counting pixels from the atlas's top left corner. */
  lemma {:induction false} PixelsAre(m: seq<Byte>, ps: nat, width: nat, height: nat, s: Stamp, i: nat, j: nat, k: nat)
    requires height * (ps * width) <= |m| && Shown(m, ps, width, height, s)
    requires i < s.rect.h - 1 && j < s.rect.w - 1 && k < ps
    ensures var at, from := PixelAt(ps, width, s.rect.y + i, s.rect.x + j) + k, PixelAt(ps, s.rect.w - 1, i, j) + k;
      at < |m| && from < |s.data| && m[at] == s.data[from]
  {
    StampFits(ps, width, height, s);
    InRow(ps, s.rect.w - 1, j, k);
    ShownBytes(m, ps * width, height, BlockOf(ps, s), i, ps * j + k);
    PixelOffset(ps, width, s.rect.y + i, s.rect.x, j);
    PixelOffset(ps, s.rect.w - 1, i, 0, j);
  }

  /** Where a pixel begins in a bitmap that is `width` pixels wide. */
  function PixelAt(ps: nat, width: nat, y: nat, x: nat): nat {
    (y * width + x) * ps
  }

  lemma InRow(ps: nat, w: nat, j: nat, k: nat)
    requires j < w && k < ps
    ensures ps * j + k < ps * w
  {
    assert ps * w == ps * j + ps + ps * (w - j - 1);
  }

  lemma PixelOffset(ps: nat, width: nat, y: nat, x: nat, j: nat)
    ensures PixelAt(ps, width, y, x + j) == y * (ps * width) + ps * x + ps * j
  {
    assert y * width * ps == y * (ps * width);
  }

  lemma WritingIsShown(st: State, ss: seq<Stamp>, s: Stamp)
    requires StateOk(st) && AllShown(st.mem, st.ps, st.width, st.height, ss)
    requires StampOk(st.ps, st.width, st.height, s)
    requires forall i :: 0 <= i < |ss| ==> Disjoint(ss[i].rect, s.rect)
    ensures AllShown(Written(st, s), st.ps, st.width, st.height, ss + [s])
  {
    StampFits(st.ps, st.width, st.height, s);
    if st.ps == 0 {
      assert Shown(st.mem, 0, st.width, st.height, s);
    } else {
      StampKeeps(st.mem, st.ps, st.width, st.height, ss, s);
    }
  }
}
