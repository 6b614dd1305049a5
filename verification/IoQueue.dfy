/**
  The request list of src/ioman.c: a singly linked list with a tail pointer, changed in place by the three
  critical sections that touch it. `Contents` is the queue it stands for.
 */
module IoQueue {

  /** `data` is the handler's argument, a pointer known only by identity. */
  datatype Request = Request(kind: int, data: int)

  const IO_MENU_UPDATE_DEFFERED: int := 2
  const IO_CACHE_LOAD_ART: int := 3
  const IO_COMPAT_UPDATE_DEFFERED: int := 4

  /** Deferred updates are not queued twice. */
  predicate Deferred(r: Request) {
    r.kind == IO_MENU_UPDATE_DEFFERED || r.kind == IO_COMPAT_UPDATE_DEFFERED
  }

  function Put(q: seq<Request>, r: Request): seq<Request> {
    if Deferred(r) && r in q then q else q + [r]
  }

  function Without(q: seq<Request>, kind: int): seq<Request> {
    if q == [] then []
    else Without(q[..|q| - 1], kind) + if q[|q| - 1].kind == kind then [] else [q[|q| - 1]]
  }

  /** Nothing but the requests of one kind goes, and nothing of that kind stays. */
  lemma {:induction false} WithoutCounts(q: seq<Request>, kind: int)
    ensures forall r :: multiset(Without(q, kind))[r] == if r.kind == kind then 0 else multiset(q)[r]
  {
    if q != [] {
      WithoutCounts(q[..|q| - 1], kind);
      assert q == q[..|q| - 1] + [q[|q| - 1]];
    }
  }

  /** What stays are the requests of other kinds, all of them and in their order: `at` are their places in the queue. */
  lemma {:induction false} WithoutIsTheRest(q: seq<Request>, kind: int) returns (at: seq<nat>)
    ensures |at| == |Without(q, kind)|
    ensures forall i :: 0 <= i < |at| ==> at[i] < |q| && Without(q, kind)[i] == q[at[i]]
    ensures forall i, k :: 0 <= i < k < |at| ==> at[i] < at[k]
    ensures forall j :: 0 <= j < |q| ==> (j in at <==> q[j].kind != kind)
  {
    at := [];
    if q != [] {
      var n := |q| - 1;
      at := WithoutIsTheRest(q[..n], kind);
      assert forall i :: 0 <= i < |at| ==> at[i] in at;
      if q[n].kind != kind {
        at := at + [n];
      }
    }
  }

  class Node {
    const kind: int
    const data: int
    var next: Node?

    constructor (kind: int, data: int)
      ensures this.kind == kind && this.data == data && next == null
    {
      this.kind, this.data, this.next := kind, data, null;
    }
  }

  ghost function Requests(ns: seq<Node>): (q: seq<Request>)
    ensures |q| == |ns| && forall i :: 0 <= i < |ns| ==> q[i] == Request(ns[i].kind, ns[i].data)
  {
    seq(|ns|, i requires 0 <= i < |ns| => Request(ns[i].kind, ns[i].data))
  }

  ghost predicate Distinct(ns: seq<Node>) {
    forall i, j :: 0 <= i < j < |ns| ==> ns[i] != ns[j]
  }

  /** The nodes from `from` on form a list that ends in null. */
  ghost predicate Linked(ns: seq<Node>, from: nat)
    reads ns
  {
    forall i {:trigger After(ns, i, null)} :: from <= i < |ns| ==> ns[i].next == After(ns, i, null)
  }

  /** The node behind the `i`-th, or `end` behind the last. */
  ghost function After(ns: seq<Node>, i: nat, end: Node?): Node? {
    if i + 1 < |ns| then ns[i + 1] else end
  }

  class RequestList {
    var head: Node?
    var tail: Node?
    ghost var nodes: seq<Node>

    ghost predicate Valid()
      reads this, nodes
    {
      && Distinct(nodes) && Linked(nodes, 0)
      && head == (if nodes == [] then null else nodes[0])
      && tail == (if nodes == [] then null else nodes[|nodes| - 1])
    }

    ghost function Contents(): seq<Request>
      reads this
    {
      Requests(nodes)
    }

    constructor ()
      ensures Valid() && Contents() == []
    {
      head, tail, nodes := null, null, [];
    }

    /** The critical section of `ioPutRequest`: a deferred update already queued is dropped, anything else appended. */
    method Enqueue(kind: int, data: int) returns (queued: bool)
      requires Valid()
      modifies this, nodes
      ensures Valid()
      ensures Contents() == Put(old(Contents()), Request(kind, data))
      ensures queued <==> Contents() != old(Contents())
      // only the two deferred updates, types 2 and 4, are ever dropped, and only when an equal one is queued
      ensures queued <==> !((kind == 2 || kind == 4) && Request(kind, data) in old(Contents()))
      ensures queued ==> Contents() == old(Contents()) + [Request(kind, data)]
    {
      if kind == IO_MENU_UPDATE_DEFFERED || kind == IO_COMPAT_UPDATE_DEFFERED {
        var found := Contains(kind, data);
        if found {
          return false;
        }
      }
      var req := new Node(kind, data);
      Append(req);
      queued := true;
      assert |Contents()| == |old(Contents())| + 1;
    }

    method Append(req: Node)
      requires Valid() && req !in nodes && req.next == null
      modifies this, nodes
      ensures Valid()
      ensures Contents() == old(Contents()) + [Request(req.kind, req.data)]
    {
      ghost var ns := nodes;
      if tail == null {
        head := req;
      } else {
        tail.next := req;
      }
      tail := req;
      nodes := ns + [req];
      forall i | 0 <= i < |nodes| ensures nodes[i].next == After(nodes, i, null) {
        assert i < |ns| ==> old(ns[i].next) == After(ns, i, null);
      }
    }

    method Contains(kind: int, data: int) returns (found: bool)
      requires Valid()
      ensures found <==> Request(kind, data) in Contents()
    {
      var cur := head;
      ghost var i := 0;
      while cur != null
        invariant 0 <= i <= |nodes|
        invariant cur == if i < |nodes| then nodes[i] else null
        invariant forall j :: 0 <= j < i ==> Contents()[j] != Request(kind, data)
        decreases |nodes| - i
      {
        if cur.kind == kind && cur.data == data {
          assert Contents()[i] == Request(kind, data);
          return true;
        }
        assert cur.next == After(nodes, i, null);
        cur := cur.next;
        i := i + 1;
      }
      found := false;
    }

    /** The worker unlinks the request it has just handled. */
    method Dequeue()
      requires Valid() && head != null
      modifies this
      ensures Valid()
      ensures Contents() == old(Contents())[1..]
    {
      ghost var ns := nodes;
      assert ns[0].next == After(ns, 0, null);
      head := head.next;
      if head == null {
        tail := null;
      }
      nodes := ns[1..];
      assert forall i :: 0 <= i < |nodes| ==> nodes[i] == ns[i + 1] && After(nodes, i, null) == After(ns, i + 1, null);
    }

    /** Half way through a removal: `kept` is what stays of the first `i` nodes of `ns`. */
    ghost predicate Midway(ns: seq<Node>, i: nat, kept: seq<Node>, req: Node?, last: Node?)
      reads this, ns, kept
    {
      && i <= |ns| && Distinct(ns) && Distinct(kept) && Apart(kept, ns, i)
      && req == (if i < |ns| then ns[i] else null) && Linked(ns, i)
      && LinkedTo(kept, req)
      && last == (if kept == [] then null else kept[|kept| - 1]) && (last != null ==> last in ns)
      && head == (if kept == [] then req else kept[0])
      && tail == (if i < |ns| then ns[|ns| - 1] else last)
    }

    /** Unlinks the current node. */
    method Unlink(req: Node, last: Node?, ghost ns: seq<Node>, ghost i: nat, ghost kept: seq<Node>)
        returns (next: Node?)
      requires Midway(ns, i, kept, req, last) && i < |ns|
      modifies this`head, this`tail, ns
      ensures Midway(ns, i + 1, kept, next, last) && nodes == old(nodes)
    {
      assert req.next == After(ns, i, null);
      next := req.next;
      if last != null {
        last.next := next;
      }
      if req == head {
        head := next;
      }
      if req == tail {
        tail := last;
      }
      forall j | 0 <= j < |kept| - 1 ensures kept[j].next == After(kept, j, next) {
        assert old(kept[j].next) == After(kept, j, req);
      }
      forall k | i < k < |ns| ensures ns[k].next == After(ns, k, null) {
        assert old(ns[k].next) == After(ns, k, null);
      }
    }

    lemma Pass(ns: seq<Node>, i: nat, kept: seq<Node>, last: Node?)
      requires i < |ns| && Midway(ns, i, kept, ns[i], last)
      ensures Midway(ns, i + 1, kept + [ns[i]], ns[i].next, ns[i])
    {
      var req := ns[i];
      var more := kept + [req];
      assert req.next == After(ns, i, null);
      assert forall j :: 0 <= j < |kept| ==> After(more, j, req.next) == After(kept, j, req);
    }

    /** One round of the removal loop. */
    method Visit(kind: int, req: Node, last: Node?, ghost ns: seq<Node>, ghost i: nat)
      returns (req': Node?, last': Node?, removed: bool)
      requires i < |ns| && Midway(ns, i, Staying(ns, i, kind), req, last)
      modifies this`head, this`tail, ns
      ensures Midway(ns, i + 1, Staying(ns, i + 1, kind), req', last')
      ensures |Staying(ns, i + 1, kind)| == |Staying(ns, i, kind)| + if removed then 0 else 1
    {
      removed := req.kind == kind;
      if removed {
        req' := Unlink(req, last, ns, i, Staying(ns, i, kind));
        last' := last;
        assert Staying(ns, i + 1, kind) == Staying(ns, i, kind);
      } else {
        Pass(ns, i, Staying(ns, i, kind), last);
        last', req' := req, req.next;
      }
    }

    /** The critical section of `ioRemoveRequests`: every request of one kind is unlinked where it stands. */
    method RemoveKind(kind: int) returns (count: nat)
      requires Valid()
      modifies this, nodes
      ensures Valid()
      ensures Contents() == Without(old(Contents()), kind)
      ensures count == |old(Contents())| - |Contents()|
      ensures forall r :: multiset(Contents())[r] == if r.kind == kind then 0 else multiset(old(Contents()))[r]
    {
      WithoutCounts(Contents(), kind);
      count := Unlist(kind);
    }

    method Unlist(kind: int) returns (count: nat)
      requires Valid()
      modifies this, nodes
      ensures Valid()
      ensures Contents() == Without(old(Contents()), kind)
      ensures count == |old(Contents())| - |Contents()|
    {
      ghost var ns := nodes;
      count := Sweep(kind, ns);
      StayingRequests(ns, |ns|, kind);
      assert ns[..|ns|] == ns;
      nodes := Staying(ns, |ns|, kind);
    }

    method Sweep(kind: int, ghost ns: seq<Node>) returns (count: nat)
      requires Valid() && ns == nodes
      modifies this`head, this`tail, ns
      ensures Midway(ns, |ns|, Staying(ns, |ns|, kind), null, tail)
      ensures count == |ns| - |Staying(ns, |ns|, kind)|
    {
      ghost var i := 0;
      var req := head;
      var last: Node? := null;
      count := 0;
      while req != null
        invariant i <= |ns|
        invariant Midway(ns, i, Staying(ns, i, kind), req, last)
        invariant count == i - |Staying(ns, i, kind)|
        decreases |ns| - i
      {
        var removed;
        req, last, removed := Visit(kind, req, last, ns, i);
        count := if removed then count + 1 else count;
        i := i + 1;
      }
      assert i == |ns|;
    }
  }

  /** No node of `kept` is among those still to come. */
  ghost predicate Apart(kept: seq<Node>, ns: seq<Node>, i: nat) {
    forall j, k :: 0 <= j < |kept| && i <= k < |ns| ==> kept[j] != ns[k]
  }

  ghost predicate LinkedTo(kept: seq<Node>, end: Node?)
    reads kept
  {
    forall j {:trigger After(kept, j, end)} :: 0 <= j < |kept| ==> kept[j].next == After(kept, j, end)
  }

  /** The nodes among the first `i` that a removal keeps. */
  ghost function Staying(ns: seq<Node>, i: nat, kind: int): seq<Node>
    requires i <= |ns|
  {
    if i == 0 then []
    else Staying(ns, i - 1, kind) + if ns[i - 1].kind == kind then [] else [ns[i - 1]]
  }

  lemma {:induction false} StayingRequests(ns: seq<Node>, i: nat, kind: int)
    requires i <= |ns|
    ensures Requests(Staying(ns, i, kind)) == Without(Requests(ns[..i]), kind)
  {
    if i > 0 {
      StayingRequests(ns, i - 1, kind);
      var q := Requests(ns[..i]);
      assert q[..|q| - 1] == Requests(ns[..i - 1]);
    }
  }
}
