/**
  The guillotine rectangle allocator of src/atlas.c as a function on trees of rectangles, and
  what holds of every tree that any sequence of requests can produce.
 */
module Guillotine {
  import opened Prelude

  datatype Rect = Rect(x: int, y: int, w: int, h: int)

  predicate Proper(r: Rect) {
    r.w >= 0 && r.h >= 0
  }

  predicate In(px: int, py: int, r: Rect) {
    r.x <= px < r.x + r.w && r.y <= py < r.y + r.h
  }

  /** No pixel belongs to both. */
  ghost predicate Disjoint(a: Rect, b: Rect) {
    forall px, py :: !(In(px, py, a) && In(px, py, b))
  }

  predicate Within(a: Rect, b: Rect) {
    b.x <= a.x && b.y <= a.y && a.x + a.w <= b.x + b.w && a.y + a.h <= b.y + b.h
  }

  /** `used` is the rectangle handed out when the node was split. */
  datatype Tree =
    | Free(box: Rect)
    | Split(box: Rect, used: Rect, leaf1: Tree, leaf2: Tree)

  /** The two ways in which a request of the size of `used` cuts a box. */
  predicate Cut(box: Rect, used: Rect, a: Rect, b: Rect) {
    && used.x == box.x && used.y == box.y && Proper(used) && used.w <= box.w && used.h <= box.h
    && (|| (&& a == Rect(box.x + used.w, box.y, box.w - used.w, used.h)
            && b == Rect(box.x, box.y + used.h, box.w, box.h - used.h))
        || (&& a == Rect(box.x, box.y + used.h, used.w, box.h - used.h)
            && b == Rect(box.x + used.w, box.y, box.w - used.w, box.h)))
  }

  predicate ValidTree(t: Tree) {
    && Proper(t.box)
    && (t.Split? ==>
          && Cut(t.box, t.used, t.leaf1.box, t.leaf2.box)
          && ValidTree(t.leaf1) && ValidTree(t.leaf2))
  }

  predicate Fits(box: Rect, w: int, h: int) {
    box.w >= w && box.h >= h
  }

  datatype Placed = Placed(tree: Tree, rect: Option<Rect>)

  /** `allocPlace`: children of a box too small for the request are not visited. */
  function Place(t: Tree, w: nat, h: nat): (r: Placed)
    ensures r.tree.box == t.box
  {
    if !Fits(t.box, w, h) then Placed(t, None)
    else
      match t
      case Free(box) =>
        var used := Rect(box.x, box.y, w, h);
        var dx, dy := box.w - w, box.h - h;
        if dx < dy then
          Placed(Split(box, used, Free(Rect(box.x + w, box.y, dx, h)), Free(Rect(box.x, box.y + h, box.w, dy))),
            Some(used))
        else
          Placed(Split(box, used, Free(Rect(box.x, box.y + h, w, dy)), Free(Rect(box.x + w, box.y, dx, box.h))),
            Some(used))
      case Split(box, used, leaf1, leaf2) =>
        var r1 := Place(leaf1, w, h);
        if r1.rect.Some? then Placed(Split(box, used, r1.tree, leaf2), r1.rect)
        else
          var r2 := Place(leaf2, w, h);
          if r2.rect.Some? then Placed(Split(box, used, leaf1, r2.tree), r2.rect)
          else Placed(t, None)
  }

  /** All rectangles handed out. */
  ghost function Used(t: Tree): multiset<Rect> {
    match t
    case Free(_) => multiset{}
    case Split(_, used, leaf1, leaf2) => multiset{used} + Used(leaf1) + Used(leaf2)
  }

  /** Some free leaf, anywhere in the tree, is large enough. */
  predicate HasRoom(t: Tree, w: nat, h: nat) {
    match t
    case Free(box) => Fits(box, w, h)
    case Split(_, _, leaf1, leaf2) => HasRoom(leaf1, w, h) || HasRoom(leaf2, w, h)
  }

  /** How many handed-out rectangles and free leaves contain a pixel. */
  function Cover(t: Tree, px: int, py: int): nat {
    match t
    case Free(box) => if In(px, py, box) then 1 else 0
    case Split(_, used, leaf1, leaf2) =>
      (if In(px, py, used) then 1 else 0) + Cover(leaf1, px, py) + Cover(leaf2, px, py)
  }

  function Area(r: Rect): int {
    r.w * r.h
  }

  function UsedArea(t: Tree): int {
    match t
    case Free(_) => 0
    case Split(_, used, leaf1, leaf2) => Area(used) + UsedArea(leaf1) + UsedArea(leaf2)
  }

  function FreeArea(t: Tree): int {
    match t
    case Free(box) => Area(box)
    case Split(_, _, leaf1, leaf2) => FreeArea(leaf1) + FreeArea(leaf2)
  }

  /** The handed-out rectangles and the free leaves tile the box: no pixel is lost, none is shared. */
  lemma {:induction false} Tiles(t: Tree, px: int, py: int)
    requires ValidTree(t)
    ensures Cover(t, px, py) == if In(px, py, t.box) then 1 else 0
  {
    if t.Split? {
      Tiles(t.leaf1, px, py);
      Tiles(t.leaf2, px, py);
    }
  }

  lemma {:induction false} AreaIsConserved(t: Tree)
    requires ValidTree(t)
    ensures UsedArea(t) + FreeArea(t) == Area(t.box)
  {
    if t.Split? {
      AreaIsConserved(t.leaf1);
      AreaIsConserved(t.leaf2);
      CutArea(t.box, t.used, t.leaf1.box, t.leaf2.box);
    }
  }

  lemma CutArea(box: Rect, used: Rect, a: Rect, b: Rect)
    requires Cut(box, used, a, b)
    ensures Area(used) + Area(a) + Area(b) == Area(box)
  {
    var dx, dy := box.w - used.w, box.h - used.h;
    assert box.w * box.h == (used.w + dx) * (used.h + dy);
    assert (used.w + dx) * (used.h + dy) == used.w * used.h + used.w * dy + dx * used.h + dx * dy;
    assert (used.w + dx) * dy == used.w * dy + dx * dy;
    assert dx * (used.h + dy) == dx * used.h + dx * dy;
  }

  lemma {:induction false} UsedStaysInside(t: Tree, u: Rect)
    requires ValidTree(t) && u in Used(t)
    ensures Proper(u) && Within(u, t.box)
  {
    if u != t.used {
      if u in Used(t.leaf1) { UsedStaysInside(t.leaf1, u); } else { UsedStaysInside(t.leaf2, u); }
    }
  }

  /** A fitting leaf below an inner node forces the inner node itself to fit, so pruning loses nothing. */
  lemma {:induction false} RoomNeedsFit(t: Tree, w: nat, h: nat)
    requires ValidTree(t) && HasRoom(t, w, h)
    ensures Fits(t.box, w, h)
  {
    if t.Split? {
      if HasRoom(t.leaf1, w, h) { RoomNeedsFit(t.leaf1, w, h); } else { RoomNeedsFit(t.leaf2, w, h); }
    }
  }

  /** The allocator refuses exactly when no free leaf fits. */
  lemma {:induction false} RefusesExactlyWhenFull(t: Tree, w: nat, h: nat)
    requires ValidTree(t)
    ensures Place(t, w, h).rect.None? <==> !HasRoom(t, w, h)
  {
    if HasRoom(t, w, h) {
      RoomNeedsFit(t, w, h);
    }
    if t.Split? {
      RefusesExactlyWhenFull(t.leaf1, w, h);
      RefusesExactlyWhenFull(t.leaf2, w, h);
    }
  }

  lemma {:induction false} PlaceKeepsValid(t: Tree, w: nat, h: nat)
    requires ValidTree(t)
    ensures ValidTree(Place(t, w, h).tree)
    ensures Place(t, w, h).rect.None? ==> Place(t, w, h).tree == t
  {
    if t.Split? {
      PlaceKeepsValid(t.leaf1, w, h);
      PlaceKeepsValid(t.leaf2, w, h);
    }
  }

  /** A success hands out a rectangle of the requested size, inside the box. */
  lemma {:induction false} PlaceIsInside(t: Tree, w: nat, h: nat)
    requires ValidTree(t) && Place(t, w, h).rect.Some?
    ensures var r := Place(t, w, h).rect.value; r.w == w && r.h == h && Within(r, t.box)
  {
    if t.Split? {
      if Place(t.leaf1, w, h).rect.Some? { PlaceIsInside(t.leaf1, w, h); } else { PlaceIsInside(t.leaf2, w, h); }
    }
  }

  /** It is added to those handed out before, none of which is given up. */
  lemma {:induction false} PlaceAddsOne(t: Tree, w: nat, h: nat)
    requires Place(t, w, h).rect.Some?
    ensures Used(Place(t, w, h).tree) == Used(t) + multiset{Place(t, w, h).rect.value}
  {
    if t.Split? {
      if Place(t.leaf1, w, h).rect.Some? { PlaceAddsOne(t.leaf1, w, h); } else { PlaceAddsOne(t.leaf2, w, h); }
    }
  }

  lemma CutIsDisjoint(box: Rect, used: Rect, a: Rect, b: Rect, u: Rect, v: Rect)
    requires Cut(box, used, a, b)
    ensures Within(u, a) && (v == used || Within(v, b)) ==> Disjoint(v, u)
    ensures Within(u, b) && (v == used || Within(v, a)) ==> Disjoint(v, u)
  {
  }

  /** The rectangle handed out shares no pixel with any handed out before. */
  lemma {:induction false} PlaceIsFresh(t: Tree, w: nat, h: nat, u: Rect)
    requires ValidTree(t) && Place(t, w, h).rect.Some? && u in Used(t)
    ensures Disjoint(u, Place(t, w, h).rect.value)
  {
    var r := Place(t, w, h).rect.value;
    var first := Place(t.leaf1, w, h).rect.Some?;
    var here, other := if first then t.leaf1 else t.leaf2, if first then t.leaf2 else t.leaf1;
    PlaceIsInside(here, w, h);
    if u in Used(here) {
      PlaceIsFresh(here, w, h, u);
    } else {
      if u in Used(other) { UsedStaysInside(other, u); }
      CutIsDisjoint(t.box, t.used, t.leaf1.box, t.leaf2.box, r, u);
    }
  }

  // ----- First fit -----

  /** The free boxes, from the first leaf to the last. */
  function Leaves(t: Tree): seq<Rect> {
    match t
    case Free(box) => [box]
    case Split(_, _, leaf1, leaf2) => Leaves(leaf1) + Leaves(leaf2)
  }

  /** `k` is the first box that is large enough, or their number if none is. */
  predicate FirstFit(boxes: seq<Rect>, w: nat, h: nat, k: nat) {
    && k <= |boxes| && (k < |boxes| ==> boxes[k].w >= w && boxes[k].h >= h)
    && forall i :: 0 <= i < k ==> boxes[i].w < w || boxes[i].h < h
  }

  /** What is left of a box. The strip below spans its width if it is higher than the one beside is wide. */
  predicate Left(box: Rect, w: nat, h: nat, rest: seq<Rect>) {
    var dx, dy := box.w - w, box.h - h;
    if dx < dy then rest == [Rect(box.x + w, box.y, dx, h), Rect(box.x, box.y + h, box.w, dy)]
    else rest == [Rect(box.x, box.y + h, w, dy), Rect(box.x + w, box.y, dx, box.h)]
  }

  /** Box `k` was used up to what is left of it, which takes its place. */
  predicate UsedUp(boxes: seq<Rect>, boxes': seq<Rect>, w: nat, h: nat, k: nat) {
    && k < |boxes| && |boxes'| == |boxes| + 1
    && Left(boxes[k], w, h, boxes'[k..k + 2]) && boxes'[..k] == boxes[..k] && boxes'[k + 2..] == boxes[k + 1..]
  }

  lemma {:induction false} NoLeafFits(t: Tree, w: nat, h: nat)
    requires !HasRoom(t, w, h)
    ensures FirstFit(Leaves(t), w, h, |Leaves(t)|)
  {
    if t.Split? {
      NoLeafFits(t.leaf1, w, h);
      NoLeafFits(t.leaf2, w, h);
    }
  }

  lemma UsedUpInFront(a: seq<Rect>, a': seq<Rect>, b: seq<Rect>, w: nat, h: nat, k: nat)
    requires UsedUp(a, a', w, h, k) && FirstFit(a, w, h, k)
    ensures UsedUp(a + b, a' + b, w, h, k) && FirstFit(a + b, w, h, k)
  {
    assert (a' + b)[k..k + 2] == a'[k..k + 2] && (a' + b)[..k] == (a + b)[..k];
    assert (a' + b)[k + 2..] == a'[k + 2..] + b == (a + b)[k + 1..];
  }

  lemma UsedUpBehind(a: seq<Rect>, b: seq<Rect>, b': seq<Rect>, w: nat, h: nat, k: nat)
    requires UsedUp(b, b', w, h, k) && FirstFit(b, w, h, k) && FirstFit(a, w, h, |a|)
    ensures UsedUp(a + b, a + b', w, h, |a| + k) && FirstFit(a + b, w, h, |a| + k)
  {
    var n := |a| + k;
    assert (a + b')[n..n + 2] == b'[k..k + 2] && (a + b')[..n] == a + b'[..k] == (a + b)[..n];
    assert (a + b')[n + 2..] == b'[k + 2..] == b[k + 1..] == (a + b)[n + 1..];
  }

  /** The tree search is first fit on the list of free boxes: the first large enough one is cut, and no other. */
  lemma {:induction false} PlaceIsFirstFit(t: Tree, w: nat, h: nat) returns (k: nat)
    requires ValidTree(t)
    ensures FirstFit(Leaves(t), w, h, k)
    ensures var p, boxes := Place(t, w, h), Leaves(t);
      if k == |boxes| then p == Placed(t, None)
      else p.rect == Some(Rect(boxes[k].x, boxes[k].y, w, h)) && UsedUp(boxes, Leaves(p.tree), w, h, k)
  {
    RefusesExactlyWhenFull(t, w, h);
    if !HasRoom(t, w, h) {
      k := |Leaves(t)|;
      NoLeafFits(t, w, h);
      PlaceKeepsValid(t, w, h);
    } else if t.Free? {
      k := 0;
    } else {
      RefusesExactlyWhenFull(t.leaf1, w, h);
      if HasRoom(t.leaf1, w, h) {
        k := PlaceIsFirstFit(t.leaf1, w, h);
        UsedUpInFront(Leaves(t.leaf1), Leaves(Place(t.leaf1, w, h).tree), Leaves(t.leaf2), w, h, k);
      } else {
        NoLeafFits(t.leaf1, w, h);
        k := PlaceIsFirstFit(t.leaf2, w, h);
        UsedUpBehind(Leaves(t.leaf1), Leaves(t.leaf2), Leaves(Place(t.leaf2, w, h).tree), w, h, k);
        k := |Leaves(t.leaf1)| + k;
      }
    }
  }

  // ----- Any sequence of requests -----

  datatype Request = Request(w: nat, h: nat)

  function PlaceAll(t: Tree, rs: seq<Request>): (r: (Tree, seq<Rect>))
  {
    if rs == [] then (t, [])
    else
      var (t', placed) := PlaceAll(t, rs[..|rs| - 1]);
      var q := rs[|rs| - 1];
      var p := Place(t', q.w, q.h);
      (p.tree, if p.rect.Some? then placed + [p.rect.value] else placed)
  }

  ghost predicate PairwiseDisjoint(rects: seq<Rect>) {
    forall i, j :: 0 <= i < j < |rects| ==> Disjoint(rects[i], rects[j])
  }

  /** `placed` lists what the allocator has handed out of `box` so far. */
  ghost predicate Consistent(t: Tree, placed: seq<Rect>, box: Rect) {
    && ValidTree(t) && t.box == box
    && multiset(placed) == Used(t)
    && PairwiseDisjoint(placed)
    && forall i :: 0 <= i < |placed| ==> Within(placed[i], box)
  }

  lemma StepIsConsistent(t: Tree, placed: seq<Rect>, box: Rect, w: nat, h: nat)
    requires Consistent(t, placed, box)
    ensures var p := Place(t, w, h);
            Consistent(p.tree, if p.rect.Some? then placed + [p.rect.value] else placed, box)
  {
    var p := Place(t, w, h);
    PlaceKeepsValid(t, w, h);
    if p.rect.Some? {
      var r := p.rect.value;
      PlaceIsInside(t, w, h);
      PlaceAddsOne(t, w, h);
      forall i | 0 <= i < |placed|
        ensures Disjoint(placed[i], r)
      {
        assert placed[i] in multiset(placed);
        PlaceIsFresh(t, w, h, placed[i]);
      }
      ConsistentAppend(t, p.tree, placed, r, box);
    }
  }

  lemma ConsistentAppend(t: Tree, t': Tree, placed: seq<Rect>, r: Rect, box: Rect)
    requires Consistent(t, placed, box)
    requires ValidTree(t') && t'.box == box && Used(t') == Used(t) + multiset{r} && Within(r, box)
    requires forall i :: 0 <= i < |placed| ==> Disjoint(placed[i], r)
    ensures Consistent(t', placed + [r], box)
  {
    AppendDisjoint(placed, r);
    AppendWithin(placed, r, box);
    MultisetAppend(placed, r);
  }

  lemma AppendWithin(placed: seq<Rect>, r: Rect, box: Rect)
    requires Within(r, box) && forall i :: 0 <= i < |placed| ==> Within(placed[i], box)
    ensures forall i :: 0 <= i < |placed + [r]| ==> Within((placed + [r])[i], box)
  {
  }

  lemma MultisetAppend(placed: seq<Rect>, r: Rect)
    ensures multiset(placed + [r]) == multiset(placed) + multiset{r}
  {
  }

  lemma AppendDisjoint(placed: seq<Rect>, r: Rect)
    requires PairwiseDisjoint(placed)
    requires forall i :: 0 <= i < |placed| ==> Disjoint(placed[i], r)
    ensures PairwiseDisjoint(placed + [r])
  {
    forall i, j | 0 <= i < j < |placed| + 1
      ensures Disjoint((placed + [r])[i], (placed + [r])[j])
    {
      assert (placed + [r])[i] == placed[i];
      if j < |placed| {
        assert Disjoint(placed[i], placed[j]);
      }
    }
  }

  /** Whatever is asked of a fresh atlas, in whatever order. */
  lemma {:induction false} EveryRunIsSafe(w: nat, h: nat, rs: seq<Request>)
    ensures var (t, placed) := PlaceAll(Free(Rect(0, 0, w, h)), rs);
            && Consistent(t, placed, Rect(0, 0, w, h))
            && UsedArea(t) + FreeArea(t) == w * h
  {
    var box := Rect(0, 0, w, h);
    var (t', placed') := PlaceAll(Free(box), rs);
    if rs != [] {
      EveryRunIsSafe(w, h, rs[..|rs| - 1]);
      var (t, placed) := PlaceAll(Free(box), rs[..|rs| - 1]);
      StepIsConsistent(t, placed, box, rs[|rs| - 1].w, rs[|rs| - 1].h);
    }
    AreaIsConserved(t');
  }
}
