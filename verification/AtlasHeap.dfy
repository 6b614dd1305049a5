/**
  The atlas as the program keeps it: allocation nodes that graft their leaves in place, over a pixel buffer
  that is written in place.
 */
module AtlasHeap {
  import opened Prelude
  import opened Guillotine
  import opened Bytes
  import opened Surface
  import opened AtlasState

  class Node {
    const x: int
    const y: int
    const w: int
    const h: int
    var leaf1: Node?
    var leaf2: Node?
    ghost var used: Rect
    ghost var Repr: set<object>

    ghost predicate Valid()
      reads this, Repr
      decreases Repr
      ensures Valid() ==> this in Repr
    {
      && this in Repr
      && (leaf1 == null <==> leaf2 == null)
      && (leaf1 != null ==>
            && leaf1 in Repr && leaf2 in Repr
            && leaf1.Repr <= Repr && leaf2.Repr <= Repr
            && this !in leaf1.Repr && this !in leaf2.Repr && leaf1.Repr !! leaf2.Repr
            && leaf1.Valid() && leaf2.Valid())
    }

    ghost function Model(): (t: Tree)
      requires Valid()
      reads this, Repr
      decreases Repr
      ensures t.box == Rect(x, y, w, h)
    {
      if leaf1 == null then Free(Rect(x, y, w, h))
      else Split(Rect(x, y, w, h), used, leaf1.Model(), leaf2.Model())
    }

    constructor (x: int, y: int, w: int, h: int)
      ensures Valid() && fresh(Repr) && Model() == Free(Rect(x, y, w, h))
      ensures this.x == x && this.y == y && this.w == w && this.h == h
    {
      this.x, this.y, this.w, this.h := x, y, w, h;
      leaf1, leaf2 := null, null;
      used := Rect(0, 0, 0, 0);
      Repr := {this};
    }

    /** `allocPlace`. The node returned is one that was in the tree; its position never changes. */
    method Place(width: nat, height: nat) returns (p: Node?)
      requires Valid()
      modifies Repr
      decreases Repr
      ensures Valid() && old(Repr) <= Repr && fresh(Repr - old(Repr))
      ensures Model() == Guillotine.Place(old(Model()), width, height).tree
      ensures var r := Guillotine.Place(old(Model()), width, height).rect;
              && (p == null <==> r.None?)
              && (p != null ==> p in old(Repr) && Rect(p.x, p.y, width, height) == r.value)
      ensures p == null ==> unchanged(old(Repr))
    {
      if !(w >= width && h >= height) {
        return null;
      }
      if leaf1 == null && leaf2 == null {
        Graft(width, height);
        return this;
      }
      p := PlaceBelow(width, height);
    }

    /** A free node that fits becomes an inner node with two free leaves. */
    method Graft(width: nat, height: nat)
      requires Valid() && leaf1 == null && w >= width && h >= height
      modifies this
      ensures Valid() && old(Repr) <= Repr && fresh(Repr - old(Repr))
      ensures Model() == Guillotine.Place(old(Model()), width, height).tree
    {
      var dx, dy := w - width, h - height;
      if dx < dy {
        leaf1 := new Node(x + width, y, dx, height);
        leaf2 := new Node(x, y + height, w, dy);
      } else {
        leaf1 := new Node(x, y + height, width, dy);
        leaf2 := new Node(x + width, y, dx, h);
      }
      used := Rect(x, y, width, height);
      Repr := Repr + leaf1.Repr + leaf2.Repr;
    }

    /** An inner node asks its first leaf, then its second. */
    method PlaceBelow(width: nat, height: nat) returns (p: Node?)
      requires Valid() && leaf1 != null && w >= width && h >= height
      modifies Repr
      decreases Repr, 1
      ensures Valid() && old(Repr) <= Repr && fresh(Repr - old(Repr))
      ensures Model() == Guillotine.Place(old(Model()), width, height).tree
      ensures var r := Guillotine.Place(old(Model()), width, height).rect;
              && (p == null <==> r.None?)
              && (p != null ==> p in old(Repr) && Rect(p.x, p.y, width, height) == r.value)
      ensures p == null ==> unchanged(old(Repr))
    {
      p := leaf1.Place(width, height);
      if p == null {
        p := PlaceSecond(width, height);
      } else {
        Repr := Repr + leaf1.Repr;
      }
    }

    /** The second leaf is asked once the first has refused. */
    method PlaceSecond(width: nat, height: nat) returns (p: Node?)
      requires Valid() && leaf1 != null && w >= width && h >= height
      requires Guillotine.Place(leaf1.Model(), width, height).rect.None?
      modifies Repr
      decreases Repr, 0
      ensures Valid() && old(Repr) <= Repr && fresh(Repr - old(Repr))
      ensures Model() == Guillotine.Place(old(Model()), width, height).tree
      ensures var r := Guillotine.Place(old(Model()), width, height).rect;
              && (p == null <==> r.None?)
              && (p != null ==> p in old(Repr) && Rect(p.x, p.y, width, height) == r.value)
      ensures p == null ==> unchanged(old(Repr))
    {
      p := leaf2.Place(width, height);
      if p != null {
        Repr := Repr + leaf2.Repr;
      }
    }
  }

  class Atlas {
    const width: nat
    const height: nat
    const psm: PixelFormat
    const root: Node
    const mem: array<Byte>
    ghost var Repr: set<object>

    ghost predicate Valid()
      reads this, Repr
      ensures Valid() ==> this in Repr
    {
      && this in Repr && root in Repr && mem in Repr && root.Repr <= Repr
      && this !in root.Repr && mem !in root.Repr && root.Valid()
      && StateOk(State(width, height, PixelSize(psm), root.Model(), mem[..]))
    }

    ghost function View(): State
      requires Valid()
      reads this, Repr
    {
      State(width, height, PixelSize(psm), root.Model(), mem[..])
    }

    /** `memBytes` is the buffer size the graphics library asks for, enough for all pixels. */
    constructor (width: nat, height: nat, psm: PixelFormat, memBytes: nat)
      requires height * (PixelSize(psm) * width) <= memBytes
      ensures Valid() && fresh(Repr)
      ensures View() == State(width, height, PixelSize(psm), Free(Rect(0, 0, width, height)), Zeros(memBytes))
    {
      this.width, this.height, this.psm := width, height, psm;
      root := new Node(0, 0, width, height);
      mem := new Byte[memBytes](_ => 0);
      new;
      Repr := {this, mem} + root.Repr;
      assert mem[..] == Zeros(memBytes);
    }

    /** `atlasCopyData`; a pixel format without a size copies nothing. */
    method CopyData(al: Node, w: nat, h: nat, src: seq<Byte>)
      requires Valid()
      requires StampOk(PixelSize(psm), width, height, Stamp(Rect(al.x, al.y, w + 1, h + 1), src))
      modifies mem
      ensures mem[..] == Written(old(View()), Stamp(Rect(al.x, al.y, w + 1, h + 1), src))
      ensures root.Valid() && root.Model() == old(root.Model()) && root.Repr == old(root.Repr)
    {
      var ps := PixelSize(psm);
      StampFits(ps, width, height, Stamp(Rect(al.x, al.y, w + 1, h + 1), src));
      if ps != 0 {
        CopyBlock(mem, ps, width, height, al.x, al.y, w, h, src);
      }
    }

    /** `atlasPlace`. */
    method Place(w: nat, h: nat, surface: Option<seq<Byte>>) returns (al: Node?)
      requires Valid() && Enough(PixelSize(psm), w, h, surface)
      modifies Repr
      ensures Valid() && old(Repr) <= Repr && fresh(Repr - old(Repr))
      ensures var r := PlaceBitmap(old(View()), w, h, surface);
              && View() == r.state
              && (al == null <==> r.box.None?)
              && (al != null ==> al in Repr && r.box.value == Rect(al.x, al.y, w + 1, h + 1))
    {
      if surface.None? {
        return null;
      }
      ghost var st := View();
      PlaceKeepsValid(st.tree, w + 1, h + 1);
      al := root.Place(w + 1, h + 1);
      Repr := Repr + root.Repr;
      if al != null {
        BoxIsStampable(st, w, h, surface.value);
        WritingIgnoresTree(st, root.Model(), Stamp(Rect(al.x, al.y, w + 1, h + 1), surface.value));
        CopyData(al, w, h, surface.value);
      }
    }
  }
}
