/** The linked list behind a configuration set, src/config.c, changed in place. */
module ConfigSet {
  import opened Prelude
  import opened Config

  /** What fits the buffers of an item. */
  type Key = s: string | |s| <= KEY_MAX
  type Value = s: string | |s| <= VALUE_MAX

  class Node {
    const key: Key
    var val: Value
    var next: Node?

    constructor (key: string, val: string)
      ensures this.key == Clip(key, KEY_MAX) && this.val == Clip(val, VALUE_MAX) && next == null
    {
      this.key, this.val, this.next := Clip(key, KEY_MAX), Clip(val, VALUE_MAX), null;
    }
  }

  /** The nodes hold these entries. */
  ghost predicate Shows(ns: seq<Node>, es: seq<Entry>)
    reads ns`val
  {
    |ns| == |es| && forall i :: 0 <= i < |ns| ==> Entry(ns[i].key, ns[i].val) == es[i]
  }

  ghost predicate AllDistinct(ns: seq<Node>) {
    forall i, j :: 0 <= i < j < |ns| ==> ns[i] != ns[j]
  }

  /** The node behind the `i`-th, or `end` behind the last. */
  ghost function After(ns: seq<Node>, i: nat, end: Node?): Node? {
    if i + 1 < |ns| then ns[i + 1] else end
  }

  /** The nodes from `from` on form a list that ends in `end`. */
  ghost predicate Linked(ns: seq<Node>, from: nat, end: Node?)
    reads ns`next
  {
    forall i {:trigger After(ns, i, end)} :: from <= i < |ns| ==> ns[i].next == After(ns, i, end)
  }

  /** A list from `head` to `tail`. */
  ghost predicate Chain(ns: seq<Node>, head: Node?, tail: Node?)
    reads ns`next
  {
    && AllDistinct(ns) && Linked(ns, 0, null)
    && head == (if ns == [] then null else ns[0])
    && tail == (if ns == [] then null else ns[|ns| - 1])
  }

  ghost predicate Stored(ns: seq<Node>, es: seq<Entry>, repr: set<Node>)
    reads ns`val
  {
    Shows(ns, es) && forall n :: n in ns ==> n in repr
  }

  class Set {
    var head: Node?
    var tail: Node?
    var modified: bool
    ghost var nodes: seq<Node>
    ghost var repr: set<Node>
    ghost var Contents: seq<Entry>

    ghost predicate Valid()
      reads this`head, this`tail, this`nodes, this`repr, this`Contents, nodes
    {
      Chain(nodes, head, tail) && Stored(nodes, Contents, repr)
    }

    constructor ()
      ensures Valid() && Contents == [] && !modified && repr == {}
    {
      head, tail, modified, nodes, repr, Contents := null, null, false, [], {}, [];
    }

    /** `getConfigItemForName` */
    method GetItem(key: string) returns (item: Node?, ghost i: nat)
      requires Valid()
      ensures i == Find(Contents, key) && item == if i < |nodes| then nodes[i] else null
    {
      item, i := head, 0;
      while item != null
        invariant 0 <= i <= |nodes| && item == if i < |nodes| then nodes[i] else null
        invariant forall j :: 0 <= j < i ==> nodes[j].key != key
        decreases |nodes| - i
      {
        if item.key == key {
          break;
        }
        assert item.next == After(nodes, i, null);
        item, i := item.next, i + 1;
      }
    }

    /** `addConfigValue` */
    method Add(key: string, val: string)
      requires Valid()
      modifies this`head, this`tail, this`nodes, this`repr, this`Contents, repr`next
      ensures Valid() && Contents == old(Contents) + [Entry(Clip(key, KEY_MAX), Clip(val, VALUE_MAX))]
      ensures fresh(repr - old(repr))
    {
      var item := new Node(key, val);
      Append(item);
    }

    method Append(item: Node)
      requires Valid() && item !in nodes && item.next == null
      modifies this`head, this`tail, this`nodes, this`repr, this`Contents, repr`next
      ensures Valid() && repr == old(repr) + {item}
      ensures Contents == old(Contents) + [Entry(item.key, item.val)]
    {
      ghost var ns := nodes;
      if tail == null {
        head := item;
      } else {
        tail.next := item;
      }
      tail := item;
      nodes, repr, Contents := ns + [item], repr + {item}, Contents + [Entry(item.key, item.val)];
      forall i | 0 <= i < |nodes| ensures nodes[i].next == After(nodes, i, null) {
        assert i < |ns| ==> old(ns[i].next) == After(ns, i, null);
      }
    }

    /** `configSetStr` */
    method SetStr(key: string, value: string) returns (ok: bool)
      requires Valid()
      modifies this, repr
      ensures Valid() && Contents == Put(old(Contents), key, value)
      ensures ok == ValidKey(key) && modified == (old(modified) || PutMarks(old(Contents), key, value))
      ensures fresh(repr - old(repr)) && (Has(old(Contents), key) ==> nodes == old(nodes) && repr == old(repr))
    {
      if !ValidKey(key) {
        return false;
      }
      var item, i := GetItem(key);
      ghost var es := Contents;
      assert PutMarks(es, key, value) <==> !Hidden(key) && (item != null ==> item.val != value);
      if item != null {
        if item.val != value {
          Overwrite(item, value, i);
          Mark(key);
        } else {
          assert es[i := Entry(key, Clip(value, VALUE_MAX))] == es;
        }
        assert Contents == Put(es, key, value);
      } else {
        Add(key, value);
        Mark(key);
        assert Contents == Put(es, key, value);
      }
      ok := true;
    }

    /** Sets the dirty bit, unless the key is hidden. */
    method Mark(key: string)
      modifies this`modified
      ensures modified == (old(modified) || !Hidden(key))
      ensures Valid() == old(Valid()) && Contents == old(Contents) && repr == old(repr) && nodes == old(nodes)
    {
      if !Hidden(key) {
        modified := true;
      }
    }

    method Overwrite(item: Node, value: string, ghost i: nat)
      requires Valid() && i < |nodes| && item == nodes[i]
      modifies item`val, this`Contents
      ensures Valid() && Contents == old(Contents)[i := Entry(item.key, Clip(value, VALUE_MAX))]
    {
      item.val := Clip(value, VALUE_MAX);
      Contents := Contents[i := Entry(item.key, item.val)];
    }

    /** Half way through a removal: `kept` is what stays of the first `i` nodes of `ns`. */
    ghost predicate Midway(ns: seq<Node>, i: nat, kept: seq<Node>, val: Node?, prev: Node?)
      reads this`head, this`tail, ns`next, kept`next
    {
      && i <= |ns| && AllDistinct(ns) && AllDistinct(kept) && Apart(kept, ns, i)
      && val == (if i < |ns| then ns[i] else null) && Linked(ns, i, null) && Linked(kept, 0, val)
      && prev == (if kept == [] then null else kept[|kept| - 1]) && (prev != null ==> prev in ns)
      && head == (if kept == [] then val else kept[0])
      && tail == (if i < |ns| then ns[|ns| - 1] else prev)
    }

    /** Unlinks the current node. */
    method Unlink(val: Node, prev: Node?, ghost ns: seq<Node>, ghost i: nat, ghost kept: seq<Node>)
        returns (next: Node?)
      requires Midway(ns, i, kept, val, prev) && i < |ns|
      modifies this`head, this`tail, ns`next
      ensures Midway(ns, i + 1, kept, next, prev)
    {
      assert val.next == After(ns, i, null);
      if val == tail {
        tail := prev;
      }
      next := val.next;
      if prev != null {
        prev.next := next;
      } else {
        head := next;
      }
      forall j | 0 <= j < |kept| - 1 ensures kept[j].next == After(kept, j, next) {
        assert old(kept[j].next) == After(kept, j, val);
      }
      forall k | i < k < |ns| ensures ns[k].next == After(ns, k, null) {
        assert old(ns[k].next) == After(ns, k, null);
      }
    }

    lemma Pass(ns: seq<Node>, i: nat, kept: seq<Node>, prev: Node?)
      requires i < |ns| && Midway(ns, i, kept, ns[i], prev)
      ensures Midway(ns, i + 1, kept + [ns[i]], ns[i].next, ns[i])
    {
      var val := ns[i];
      var more := kept + [val];
      assert val.next == After(ns, i, null);
      assert forall j :: 0 <= j < |kept| ==> After(more, j, val.next) == After(kept, j, val);
    }

    /** One round of the removal loop. */
    method Visit(key: string, val: Node, prev: Node?, ghost ns: seq<Node>, ghost i: nat)
        returns (val': Node?, prev': Node?)
      requires i < |ns| && Midway(ns, i, Staying(ns, i, key), val, prev)
      modifies this`head, this`tail, this`modified, ns`next
      ensures Midway(ns, i + 1, Staying(ns, i + 1, key), val', prev')
      ensures modified == (old(modified) || (val.key == key && !Hidden(key)))
      ensures |Staying(ns, i + 1, key)| == |Staying(ns, i, key)| + if val.key == key then 0 else 1
    {
      if val.key == key {
        if !Hidden(key) {
          modified := true;
        }
        val' := Unlink(val, prev, ns, i, Staying(ns, i, key));
        prev' := prev;
        assert Staying(ns, i + 1, key) == Staying(ns, i, key);
      } else {
        Pass(ns, i, Staying(ns, i, key), prev);
        prev', val' := val, val.next;
      }
    }

    method Sweep(key: string, ghost ns: seq<Node>)
      requires Chain(ns, head, tail)
      modifies this`head, this`tail, this`modified, ns`next
      ensures Chain(Staying(ns, |ns|, key), head, tail)
      ensures modified == (old(modified) || (!Hidden(key) && |Staying(ns, |ns|, key)| != |ns|))
    {
      ghost var i := 0;
      var val := head;
      var prev: Node? := null;
      while val != null
        invariant i <= |ns|
        invariant Midway(ns, i, Staying(ns, i, key), val, prev)
        invariant modified == (old(modified) || (!Hidden(key) && |Staying(ns, i, key)| != i))
        decreases |ns| - i
      {
        StayingIsFewer(ns, i, key);
        val, prev := Visit(key, val, prev, ns, i);
        i := i + 1;
      }
      assert i == |ns|;
      Swept(ns, Staying(ns, i, key));
    }

    lemma Swept(ns: seq<Node>, kept: seq<Node>)
      requires Midway(ns, |ns|, kept, null, tail)
      ensures Chain(kept, head, tail)
    {
    }

    /** `configRemoveKey` */
    method RemoveKey(key: string) returns (ok: bool)
      requires Valid()
      modifies this, repr
      ensures Valid() && Contents == Remove(old(Contents), key) && repr == old(repr)
      ensures ok == ValidKey(key) && modified == (old(modified) || RemoveMarks(old(Contents), key))
    {
      if !ValidKey(key) {
        return false;
      }
      Unlist(key);
      ok := true;
    }

    method Unlist(key: string)
      requires Valid()
      modifies this`head, this`tail, this`modified, this`nodes, this`Contents, repr`next
      ensures Valid() && Contents == Without(old(Contents), key)
      ensures modified == (old(modified) || (!Hidden(key) && Has(old(Contents), key)))
    {
      ghost var ns := nodes;
      StayingStored(ns, Contents, key, repr);
      nodes, Contents := Staying(ns, |ns|, key), Without(Contents, key);
      Sweep(key, ns);
    }

    /** The next entry to be merged is the `i`-th of another set, which holds `from` and shares no node with this
        one. */
    ghost predicate Merging(source: Set, from: seq<Entry>, i: nat, val: Node?)
      reads this`head, this`tail, this`nodes, this`repr, this`Contents, nodes,
        source`head, source`tail, source`nodes, source`repr, source`Contents, source.nodes
    {
      && Valid() && source != this && source.Valid() && source.repr !! repr && source.Contents == from
      && i <= |from| && val == if i < |from| then source.nodes[i] else null
    }

    /** Sets what the node holds, and goes on to the next. */
    method Absorb(val: Node, source: Set, ghost from: seq<Entry>, ghost i: nat, ghost es: seq<Entry>, ghost dirty: bool)
      returns (next: Node?)
      requires Merging(source, from, i, val) && i < |from| && Merged(es, from, i, dirty, Contents, modified)
      modifies this, repr
      ensures Merging(source, from, i + 1, next) && Merged(es, from, i + 1, dirty, Contents, modified)
      ensures fresh(repr - old(repr))
    {
      MergedStep(es, from, i, dirty, Contents, modified);
      assert val.next == After(source.nodes, i, null);
      var ok := SetStr(val.key, val.val);
      next := val.next;
    }

    /** `configMerge` of a set into itself */
    method MergeSelf()
      requires Valid()
      modifies this, repr
      ensures Valid() && Contents == Merge(old(Contents), old(Contents))
      ensures modified == (old(modified) || MergeMarks(old(Contents), old(Contents)))
    {
      ghost var es, ns := Contents, nodes;
      var val := head;
      ghost var i := 0;
      assert es[..0] == [];
      while val != null
        invariant i <= |ns| && Valid() && nodes == ns && repr == old(repr)
        invariant val == if i < |ns| then ns[i] else null
        invariant Merged(es, es, i, old(modified), Contents, modified)
        decreases |ns| - i
      {
        SelfMerge(es, i);
        MergedStep(es, es, i, old(modified), Contents, modified);
        val := AbsorbOwn(val, i);
        i := i + 1;
      }
      assert es[..i] == es;
    }

    /** Sets what an own node holds, and goes on to the next. */
    method AbsorbOwn(val: Node, ghost i: nat) returns (next: Node?)
      requires Valid() && i < |nodes| && val == nodes[i]
      modifies this, repr
      ensures Valid() && nodes == old(nodes) && repr == old(repr)
      ensures Contents == Put(old(Contents), old(Contents)[i].key, old(Contents)[i].val)
      ensures modified == (old(modified) || PutMarks(old(Contents), old(Contents)[i].key, old(Contents)[i].val))
      ensures next == if i + 1 < |nodes| then nodes[i + 1] else null
    {
      assert Contents[i] == Entry(val.key, val.val) && Has(Contents, val.key);
      var ok := SetStr(val.key, val.val);
      assert val.next == After(nodes, i, null);
      next := val.next;
    }

    /** `configMerge`: from itself, or from a set that shares no node with it */
    method MergeFrom(source: Set)
      requires Valid() && source.Valid() && (source == this || source.repr !! repr)
      modifies this, repr
      ensures Valid() && Contents == Merge(old(Contents), old(source.Contents))
      ensures modified == (old(modified) || MergeMarks(old(Contents), old(source.Contents)))
    {
      if source == this {
        MergeSelf();
      } else {
        MergeOther(source);
      }
    }

    method MergeOther(source: Set)
      requires Valid() && source != this && source.Valid() && source.repr !! repr
      modifies this, repr
      ensures Valid() && Contents == Merge(old(Contents), old(source.Contents))
      ensures modified == (old(modified) || MergeMarks(old(Contents), old(source.Contents)))
    {
      ghost var es, from := Contents, source.Contents;
      var val := source.head;
      ghost var i := 0;
      assert from[..0] == [];
      while val != null
        invariant Merging(source, from, i, val) && fresh(repr - old(repr))
        invariant Merged(es, from, i, old(modified), Contents, modified)
        decreases |from| - i
      {
        val := Absorb(val, source, from, i, es, old(modified));
        i := i + 1;
      }
      assert from[..i] == from;
    }

    /** One round of the reading loop. */
    method TakeLine(line: string, prefix: string) returns (prefix': string)
      requires Valid()
      modifies this, repr
      ensures Valid() && Reader(Contents, prefix') == ReadLine(Reader(old(Contents), prefix), line)
      ensures fresh(repr - old(repr))
    {
      prefix' := prefix;
      var a := Assignment(line);
      if a.Some? {
        if !IsBlank(line[0]) {
          prefix' := "";
        }
        var ok;
        if prefix' != "" {
          ok := SetStr(Clip(prefix' + "_" + a.value.key, KEY_MAX), a.value.val);
        } else {
          ok := SetStr(a.value.key, a.value.val);
        }
      } else {
        var colon := Position(line, ':');
        if 0 < colon < |line| {
          prefix' := line[..colon];
        }
      }
    }

    /** `configReadFileBuffer`: the lines of the file are those that `readFileBuffer` gives. */
    method ReadFile(text: string)
      requires Valid()
      modifies this, repr
      ensures Valid() && Contents == Read(Reader(old(Contents), ""), LinesOf(text)).es && !modified
    {
      ReadLines(LinesOf(text));
    }

    method ReadLines(lines: seq<string>)
      requires Valid()
      modifies this, repr
      ensures Valid() && Contents == Read(Reader(old(Contents), ""), lines).es && !modified
    {
      ghost var start := Reader(Contents, "");
      var prefix := "";
      var lineno := 0;
      assert lines[..0] == [];
      while lineno < |lines|
        invariant 0 <= lineno <= |lines| && Valid()
        invariant fresh(repr - old(repr))
        invariant Reader(Contents, prefix) == Read(start, lines[..lineno])
      {
        assert lines[..lineno + 1][..lineno] == lines[..lineno];
        prefix := TakeLine(lines[lineno], prefix);
        lineno := lineno + 1;
      }
      assert lines[..lineno] == lines;
      modified := false;
    }

    /** `configWrite`: whether it succeeds, and the new text of the file, if it is written at all. */
    method Write(opens: bool) returns (ok: bool, text: Option<string>)
      requires Valid()
      modifies this`modified
      ensures Valid() && Contents == old(Contents)
      ensures ok == (!old(modified) || opens) && modified == !ok
      ensures text == if old(modified) && opens then Some(PrintFile(Contents)) else None
    {
      if !modified {
        return true, None;
      }
      if !opens {
        return false, None;
      }
      var out := PrintAll();
      modified := false;
      ok, text := true, Some(out);
    }

    method PrintAll() returns (out: string)
      requires Valid()
      ensures out == PrintFile(Contents)
    {
      out := "";
      var cur := head;
      ghost var es, i := Contents, 0;
      assert es[..0] == [];
      while cur != null
        invariant i <= |nodes| && cur == (if i < |nodes| then nodes[i] else null) && out == PrintFile(es[..i])
        decreases |nodes| - i
      {
        assert es[..i + 1][..i] == es[..i];
        if cur.key != "" && cur.key[0] != '#' {
          TextAppend(Print(es[..i]), cur.key + "=" + cur.val);
          out := out + (cur.key + "=" + cur.val) + "\r\n";
        } else {
          assert Print(es[..i + 1]) == Print(es[..i]);
        }
        assert cur.next == After(nodes, i, null);
        cur := cur.next;
        i := i + 1;
      }
      assert es[..i] == es;
    }
  }

  /** The first `i` entries of `from` have been merged in. */
  ghost predicate Merged(es: seq<Entry>, from: seq<Entry>, i: nat, dirty: bool, es': seq<Entry>, dirty': bool) {
    i <= |from| && es' == Merge(es, from[..i]) && dirty' == (dirty || MergeMarks(es, from[..i]))
  }

  lemma {:induction false} MergedStep(es: seq<Entry>, from: seq<Entry>, i: nat, dirty: bool, es': seq<Entry>,
      dirty': bool)
    requires i < |from| && Merged(es, from, i, dirty, es', dirty')
    ensures Merged(es, from, i + 1, dirty,
              Put(es', from[i].key, from[i].val), dirty' || PutMarks(es', from[i].key, from[i].val))
  {
    assert from[..i + 1][..i] == from[..i];
  }

  /** No node of `kept` is among those still to come. */
  ghost predicate Apart(kept: seq<Node>, ns: seq<Node>, i: nat) {
    forall j, k :: 0 <= j < |kept| && i <= k < |ns| ==> kept[j] != ns[k]
  }

  /** The nodes among the first `i` that a removal keeps. */
  ghost function Staying(ns: seq<Node>, i: nat, key: string): seq<Node>
    requires i <= |ns|
  {
    if i == 0 then []
    else Staying(ns, i - 1, key) + if ns[i - 1].key == key then [] else [ns[i - 1]]
  }

  lemma {:induction false} StayingIsFewer(ns: seq<Node>, i: nat, key: string)
    requires i <= |ns|
    ensures |Staying(ns, i, key)| <= i
  {
    if i > 0 {
      StayingIsFewer(ns, i - 1, key);
    }
  }

  lemma {:induction false} StayingStored(ns: seq<Node>, es: seq<Entry>, key: string, repr: set<Node>)
    requires Stored(ns, es, repr)
    ensures Stored(Staying(ns, |ns|, key), Without(es, key), repr)
    ensures |Staying(ns, |ns|, key)| != |ns| <==> Has(es, key)
  {
    StayingIn(ns, |ns|, key);
    StayingEntries(ns, es, |ns|, key);
    assert es[..|ns|] == es;
  }

  lemma {:induction false} StayingIn(ns: seq<Node>, i: nat, key: string)
    requires i <= |ns|
    ensures forall n :: n in Staying(ns, i, key) ==> n in ns
  {
    if i > 0 {
      StayingIn(ns, i - 1, key);
    }
  }

  /** What stays are the entries with another key. */
  lemma {:induction false} StayingEntries(ns: seq<Node>, es: seq<Entry>, i: nat, key: string)
    requires i <= |ns| && Shows(ns, es)
    ensures Shows(Staying(ns, i, key), Without(es[..i], key))
    ensures |Staying(ns, i, key)| != i <==> Has(es[..i], key)
  {
    if i > 0 {
      StayingEntries(ns, es, i - 1, key);
      StayingIsFewer(ns, i - 1, key);
      var init, e := es[..i - 1], es[i - 1];
      assert es[..i] == init + [e];
      StepWithout(init, e, key);
    }
  }

  lemma StepWithout(es: seq<Entry>, e: Entry, key: string)
    ensures Without(es + [e], key) == Without(es, key) + if e.key == key then [] else [e]
    ensures Has(es + [e], key) <==> Has(es, key) || e.key == key
  {
    assert (es + [e])[..|es|] == es;
  }
}
