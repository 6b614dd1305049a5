/**
  The texture cache of src/texcache.c: slots claimed by the drawing thread, least recently used first, and filled
  later by the worker thread. `TexCache` is the cache's own code; `TexProtocol` below is every interleaving of it
  with the worker.
 */
module TexCache {
  import opened Prelude

  /** What is in a slot's texture: nothing, the image loaded for a value, or what a failed load left. */
  datatype Texture = Blank | Loaded(value: string) | Broken

  /** `qr` is the pending request, known by the UID it was made for. `lastUsed` 0 marks a failed load. */
  datatype Entry = Entry(qr: Option<nat>, lastUsed: int, uid: nat, texture: Texture)

  const CLEARED: Entry := Entry(None, -1, 0, Blank)

  /** The running choice of the victim search. */
  datatype Candidate = Candidate(best: Option<nat>, rtime: int)

  function Consider(c: Candidate, i: nat, e: Entry): Candidate {
    if e.qr.None? && e.lastUsed < c.rtime then Candidate(Some(i), e.lastUsed) else c
  }

  /** The search over the slots from `i` on. */
  function Search(entries: seq<Entry>, i: nat, c: Candidate): Candidate
    requires i <= |entries|
    decreases |entries| - i
  {
    if i == |entries| then c else Search(entries, i + 1, Consider(c, i, entries[i]))
  }

  predicate Evictable(e: Entry, frame: int) {
    e.qr.None? && e.lastUsed < frame
  }

  /** `b` is the first of the oldest slots that may be evicted, if there is one. */
  predicate Oldest(entries: seq<Entry>, n: nat, frame: int, b: Option<nat>)
    requires n <= |entries|
  {
    match b
    case None => forall i :: 0 <= i < n ==> !Evictable(entries[i], frame)
    case Some(k) =>
      && k < n && Evictable(entries[k], frame)
      && (forall i :: 0 <= i < n && Evictable(entries[i], frame) ==> entries[k].lastUsed <= entries[i].lastUsed)
      && (forall i :: 0 <= i < k && Evictable(entries[i], frame) ==> entries[k].lastUsed < entries[i].lastUsed)
  }

  lemma {:induction false} SearchFindsOldest(entries: seq<Entry>, i: nat, frame: int, c: Candidate)
    requires i <= |entries| && Oldest(entries, i, frame, c.best)
    requires c.rtime == if c.best.None? then frame else entries[c.best.value].lastUsed
    ensures Oldest(entries, |entries|, frame, Search(entries, i, c).best)
    decreases |entries| - i
  {
    if i < |entries| {
      SearchFindsOldest(entries, i + 1, frame, Consider(c, i, entries[i]));
    }
  }

  /** What `cacheGetTexture` answers, besides the slots: a texture to draw, or a request to queue. */
  datatype Answer = Nothing(cacheId: int) | Draw(slot: nat) | Claim(slot: nat)

  class ImageCache {
    const entries: array<Entry>
    var nextUid: nat

    constructor (count: nat)
      ensures entries.Length == count && nextUid == 1 && fresh(entries)
      ensures forall i :: 0 <= i < count ==> entries[i] == CLEARED
    {
      entries := new Entry[count](_ => CLEARED);
      nextUid := 1;
    }

    method FindVictim(frame: int) returns (b: Option<nat>)
      ensures Oldest(entries[..], entries.Length, frame, b)
      ensures b == Search(entries[..], 0, Candidate(None, frame)).best
    {
      var rtime, i := frame, 0;
      b := None;
      ghost var all := entries[..];
      while i < entries.Length
        invariant 0 <= i <= entries.Length
        invariant Search(all, i, Candidate(b, rtime)) == Search(all, 0, Candidate(None, frame))
      {
        if entries[i].qr.None? && entries[i].lastUsed < rtime {
          rtime, b := entries[i].lastUsed, Some(i);
        }
        i := i + 1;
      }
      SearchFindsOldest(all, 0, frame, Candidate(None, frame));
    }

    /** `cacheGetTexture`; `delayed` is the test against the list's delay. */
    method GetTexture(cacheId: int, uid: int, frame: int, delayed: bool) returns (answer: Answer, uid': int)
      requires -2 <= cacheId < entries.Length
      modifies this`nextUid, entries
      ensures match answer
        case Nothing(id) => entries[..] == old(entries[..]) && nextUid == old(nextUid) && uid' == uid
        case Draw(slot) =>
          && slot == cacheId && old(entries[slot].uid) == uid
          && old(entries[slot].qr).None? && old(entries[slot].lastUsed) != 0
          && entries[..] == old(entries[..])[slot := old(entries[slot]).(lastUsed := frame)]
          && nextUid == old(nextUid) && uid' == uid
        case Claim(slot) =>
          && !delayed && Oldest(old(entries[..]), entries.Length, frame, Some(slot))
          && (cacheId >= 0 ==> old(entries[cacheId].uid) != uid)
          && entries[..] == old(entries[..])[slot := Entry(Some(old(nextUid)), -1, old(nextUid), Blank)]
          && nextUid == old(nextUid) + 1 && uid' == old(nextUid)
      // a loaded slot is drawn, a failed one never is
      ensures cacheId >= 0 && old(entries[cacheId].uid) == uid && old(entries[cacheId].qr).None? ==>
        (answer.Draw? <==> old(entries[cacheId].lastUsed) != 0)
      // a new slot is claimed exactly when there is one to be evicted and nothing else to do
      ensures answer.Claim? <==>
        && (cacheId == -1 || (cacheId >= 0 && old(entries[cacheId].uid) != uid)) && !delayed
        && exists i :: 0 <= i < entries.Length && old(entries[i].qr).None? && old(entries[i].lastUsed) < frame
      // the caller's cacheId tells a pending or failed load from a full cache
      ensures answer.Nothing? && cacheId == -2 ==> answer.cacheId == -2
      ensures answer.Nothing? && cacheId >= 0 && old(entries[cacheId].uid) == uid ==>
        answer.cacheId == if old(entries[cacheId].qr).Some? then cacheId else -2
      ensures answer.Nothing? && (cacheId == -1 || (cacheId >= 0 && old(entries[cacheId].uid) != uid)) ==>
        && answer.cacheId == -1
        && (delayed || Oldest(old(entries[..]), entries.Length, frame, None))
    {
      uid' := uid;
      if cacheId == -2 {
        return Nothing(-2), uid;
      }
      if cacheId != -1 {
        var entry := entries[cacheId];
        if entry.uid == uid {
          if entry.qr.Some? {
            return Nothing(cacheId), uid;
          } else if entry.lastUsed == 0 {
            return Nothing(-2), uid;
          }
          entries[cacheId] := entry.(lastUsed := frame);
          return Draw(cacheId), uid;
        }
      }
      if delayed {
        return Nothing(-1), uid;
      }
      var oldest := FindVictim(frame);
      assert forall i :: 0 <= i < entries.Length ==> entries[i] == entries[..][i];
      if oldest.None? {
        return Nothing(-1), uid;
      }
      entries[oldest.value] := Entry(Some(nextUid), -1, nextUid, Blank);
      answer, uid' := Claim(oldest.value), nextUid;
      nextUid := nextUid + 1;
    }

    /** `cacheLoadImage` for the request that `uid` was issued with; `ok` is the loader's outcome. */
    method LoadImage(slot: nat, uid: nat, value: string, ok: bool, frame: int)
      requires slot < entries.Length
      modifies entries
      ensures entries[..] == old(entries[..])[slot := Load(old(entries[slot]), uid, value, ok, frame)]
      ensures old(entries[slot].uid) != uid ==> entries[slot] == old(entries[slot])
      ensures old(entries[slot].uid) == uid ==> entries[slot].qr.None? && entries[slot].uid == uid
      ensures old(entries[slot].uid) == uid && ok ==> entries[slot].texture == Loaded(value)
      ensures old(entries[slot].uid) == uid ==> entries[slot].lastUsed == if ok then frame else 0
    {
      if entries[slot].uid != uid {
        return;
      }
      entries[slot] := entries[slot].(texture := Blank);
      entries[slot] := entries[slot].(texture := if ok then Loaded(value) else Broken);
      entries[slot] := entries[slot].(lastUsed := if ok then frame else 0);
      entries[slot] := entries[slot].(qr := None);
    }
  }

  /** A slot after its load: filled and released, unless it was given to another request in the meantime. */
  function Load(e: Entry, uid: nat, value: string, ok: bool, frame: int): Entry {
    if e.uid != uid then e
    else Entry(None, if ok then frame else 0, uid, if ok then Loaded(value) else Broken)
  }
}

/**
  Every interleaving of the drawing thread and the worker. The drawing thread looks at one slot per step while it
  searches, and the worker's load is cut at each of its writes. Only the drawing thread writes a UID, and the
  worker writes `qr` last, so the three reads of a hit act as one step.
 */
module TexProtocol {
  import opened Prelude
  import opened TexCache

  type Caller = nat

  /** A UID handed out: to whom, for which slot and which value. UID `u` is `log[u - 1]`. */
  datatype Issue = Issue(caller: Caller, slot: nat, value: string)

  datatype Gui = Idle | Searching(caller: Caller, value: string, i: nat, found: Candidate) | Putting(uid: nat)

  datatype Worker = Free | Guard(uid: nat) | Loading(uid: nat) | Marking(uid: nat, ok: bool) | Releasing(uid: nat)

  /** A texture handed to a caller that presented `uid`. */
  datatype Shown = Shown(caller: Caller, uid: nat, texture: Texture)

  /**
    `lost` are requests the queue refused, because I/O was blocked. `drawn` are the slots handed out in the current
    frame, with what was in them then; `shown` are all textures ever handed out.
   */
  datatype State = State(
    entries: seq<Entry>,
    log: seq<Issue>,
    frame: nat,
    gui: Gui,
    queue: seq<nat>,
    lost: set<nat>,
    worker: Worker,
    drawn: map<nat, Texture>,
    shown: seq<Shown>)

  datatype Step =
    | Get(caller: Caller, cacheId: int, uid: int, value: string, delayed: bool)
    | Look
    | Put
    | Refuse
    | NextFrame
    | Take
    | Work(ok: bool)

  predicate Issued(s: State, u: int) {
    1 <= u <= |s.log| && s.log[u - 1].slot < |s.entries|
  }

  function SlotOf(s: State, u: int): nat
    requires Issued(s, u)
  {
    s.log[u - 1].slot
  }

  /** The entry that `u` was issued for. */
  function EntryOf(s: State, u: int): Entry
    requires Issued(s, u)
  {
    s.entries[SlotOf(s, u)]
  }

  predicate WorkerOk(s: State) {
    s.worker.Free? || Issued(s, s.worker.uid)
  }

  /** A caller presents any slot, with -1 or a UID that the cache once gave to that caller. */
  predicate Enabled(s: State, a: Step) {
    match a
    case Get(c, id, u, _, _) =>
      && s.gui.Idle? && -2 <= id < |s.entries|
      && (u == -1 || (Issued(s, u) && s.log[u - 1].caller == c))
    case Look => s.gui.Searching? && s.gui.i <= |s.entries|
                 && (s.gui.found.best.Some? ==> s.gui.found.best.value < |s.entries|)
    case Put => s.gui.Putting?
    case Refuse => s.gui.Putting?
    case NextFrame => s.gui.Idle?
    case Take => s.worker.Free? && s.queue != []
    case Work(_) => !s.worker.Free? && WorkerOk(s)
  }

  function Next(s: State, a: Step): State
    requires Enabled(s, a)
  {
    match a
    case Get(c, id, u, v, delayed) =>
      if id == -2 then s
      else if id >= 0 && s.entries[id].uid == u then Hit(s, c, id)
      else if delayed then s
      else s.(gui := Searching(c, v, 0, Candidate(None, s.frame)))
    case Look =>
      if s.gui.i < |s.entries| then
        s.(gui := s.gui.(i := s.gui.i + 1, found := Consider(s.gui.found, s.gui.i, s.entries[s.gui.i])))
      else if s.gui.found.best.None? then s.(gui := Idle)
      else ClaimSlot(s, s.gui.found.best.value)
    case Put => s.(gui := Idle, queue := s.queue + [s.gui.uid])
    case Refuse => s.(gui := Idle, lost := s.lost + {s.gui.uid})
    case NextFrame => s.(frame := s.frame + 1, drawn := map[])
    case Take => s.(worker := Guard(s.queue[0]), queue := s.queue[1..])
    case Work(ok) => LoadStep(s, ok)
  }

  function Hit(s: State, c: Caller, id: nat): State
    requires id < |s.entries|
  {
    var e := s.entries[id];
    if e.qr.Some? || e.lastUsed == 0 then s
    else s.(entries := s.entries[id := e.(lastUsed := s.frame)],
            drawn := s.drawn[id := e.texture],
            shown := s.shown + [Shown(c, e.uid, e.texture)])
  }

  function ClaimSlot(s: State, slot: nat): State
    requires slot < |s.entries| && s.gui.Searching?
  {
    var u := |s.log| + 1;
    s.(entries := s.entries[slot := Entry(Some(u), -1, u, Blank)],
       log := s.log + [Issue(s.gui.caller, slot, s.gui.value)],
       gui := Putting(u))
  }

  /** One write of `cacheLoadImage`. */
  function LoadStep(s: State, ok: bool): State
    requires !s.worker.Free? && WorkerOk(s)
  {
    var u := s.worker.uid;
    var slot, e := SlotOf(s, u), EntryOf(s, u);
    match s.worker
    case Guard(_) =>
      if e.uid != u then s.(worker := Free)
      else s.(entries := s.entries[slot := e.(texture := Blank)], worker := Loading(u))
    case Loading(_) =>
      s.(entries := s.entries[slot := e.(texture := if ok then Loaded(s.log[u - 1].value) else Broken)],
         worker := Marking(u, ok))
    case Marking(_, good) =>
      s.(entries := s.entries[slot := e.(lastUsed := if good then s.frame else 0)], worker := Releasing(u))
    case Releasing(_) =>
      s.(entries := s.entries[slot := e.(qr := None)], worker := Free)
  }

  ghost predicate Initial(s: State) {
    && (forall i :: 0 <= i < |s.entries| ==> s.entries[i] == CLEARED)
    && s.log == [] && s.gui == Idle && s.queue == [] && s.lost == {} && s.worker == Free
    && s.drawn == map[] && s.shown == []
  }

  // ---- what every step keeps ----

  /** The requests under way, oldest first: with the worker, queued, and about to be queued. */
  function Active(s: State): seq<nat> {
    (if s.worker.Free? then [] else [s.worker.uid]) + s.queue + (if s.gui.Putting? then [s.gui.uid] else [])
  }

  predicate Increasing(q: seq<nat>) {
    forall i, j :: 0 <= i < j < |q| ==> q[i] < q[j]
  }

  lemma {:induction false} IncreasingParts(q: seq<nat>)
    requires Increasing(q) && q != []
    ensures Increasing(q[1..]) && q[0] !in q[1..] && forall u :: u in q[1..] ==> u in q
    ensures Increasing(q[..|q| - 1]) && q[|q| - 1] !in q[..|q| - 1] && forall u :: u in q[..|q| - 1] ==> u in q
  {
    assert forall i :: 0 <= i < |q| - 1 ==> q[1..][i] == q[i + 1] && q[..|q| - 1][i] == q[i];
  }

  /** The slot that `u` was issued for is waiting for `u`. */
  predicate Pins(s: State, u: int) {
    Issued(s, u) && EntryOf(s, u).qr == Some(u)
  }

  predicate Sound(s: State, i: nat, e: Entry) {
    && e.lastUsed <= s.frame
    && (e.uid > 0 ==> Issued(s, e.uid) && SlotOf(s, e.uid) == i)
    && (e.qr.Some? ==> e.qr.value == e.uid && (e.uid in Active(s) || e.uid in s.lost))
    && (e.qr.None? && e.uid > 0 && e.lastUsed != 0 ==> Holds(s, e, e.uid))
  }

  predicate Holds(s: State, e: Entry, u: nat) {
    Issued(s, u) && e.texture == Loaded(s.log[u - 1].value)
  }

  predicate Slots(s: State) {
    forall i :: 0 <= i < |s.entries| ==> Sound(s, i, s.entries[i])
  }

  predicate Pinned(s: State) {
    && Increasing(Active(s))
    && (forall u :: u in Active(s) ==> Pins(s, u) && u !in s.lost)
    && (forall u :: u in s.lost ==> Pins(s, u))
  }

  predicate LoadOk(s: State) {
    match s.worker
    case Marking(u, ok) => ok ==> Issued(s, u) && Holds(s, EntryOf(s, u), u)
    case Releasing(u) => Issued(s, u) && (EntryOf(s, u).lastUsed != 0 ==> Holds(s, EntryOf(s, u), u))
    case _ => true
  }

  predicate SearchOk(s: State) {
    s.gui.Searching? ==>
      && s.gui.i <= |s.entries|
      && match s.gui.found.best
         case None => s.gui.found.rtime == s.frame
         case Some(b) =>
           && b < |s.entries| && s.entries[b].qr.None?
           && s.entries[b].lastUsed == s.gui.found.rtime < s.frame
  }

  /** What was handed out in this frame is still there. */
  predicate DrawnOk(s: State) {
    forall i :: i in s.drawn ==>
      && i < |s.entries| && s.entries[i].qr.None? && s.entries[i].lastUsed == s.frame
      && s.entries[i].texture == s.drawn[i]
  }

  /** The texture is the one loaded for the value that this same caller passed when it got its UID. */
  predicate Faithful(s: State, r: Shown) {
    Issued(s, r.uid) && s.log[r.uid - 1].caller == r.caller && r.texture == Loaded(s.log[r.uid - 1].value)
  }

  predicate ShownOk(s: State) {
    forall i :: 0 <= i < |s.shown| ==> Faithful(s, s.shown[i])
  }

  predicate Inv(s: State) {
    Slots(s) && Pinned(s) && LoadOk(s) && SearchOk(s) && DrawnOk(s) && ShownOk(s)
  }

  lemma InitIsInv(s: State)
    requires Initial(s)
    ensures Inv(s)
  {
  }

  /** `s'` follows `s`: nothing issued is forgotten and time does not go back. */
  predicate Follows(s: State, s': State) {
    |s'.entries| == |s.entries| && s.log <= s'.log && s.frame <= s'.frame
  }

  lemma {:induction false} SoundStays(s: State, s': State, i: nat, e: Entry)
    requires Follows(s, s') && Sound(s, i, e)
    requires e.qr.Some? ==> e.uid in Active(s') || e.uid in s'.lost
    ensures Sound(s', i, e)
  {
  }

  /** A change of one slot that is not the slot of a request leaves the request's pin. */
  lemma {:induction false} PinStays(s: State, s': State, slot: nat, u: int)
    requires Follows(s, s') && Pins(s, u) && SlotOf(s, u) != slot
    requires forall i :: 0 <= i < |s.entries| && i != slot ==> s'.entries[i] == s.entries[i]
    ensures Pins(s', u) && EntryOf(s', u) == EntryOf(s, u)
  {
  }

  lemma {:induction false} ShownStays(s: State, s': State)
    requires Follows(s, s') && ShownOk(s) && s'.shown == s.shown
    ensures ShownOk(s')
  {
    forall i | 0 <= i < |s.shown| ensures Faithful(s', s'.shown[i]) {
      assert Faithful(s, s.shown[i]);
    }
  }

  /** The worker's own request pins its slot, which holds its UID. */
  lemma {:induction false} WorkerPins(s: State)
    requires Inv(s) && !s.worker.Free?
    ensures Pins(s, s.worker.uid) && EntryOf(s, s.worker.uid).uid == s.worker.uid
    ensures s.worker.uid in Active(s) && s.worker.uid !in s.lost
  {
    var u := s.worker.uid;
    assert Active(s)[0] == u;
    assert Pins(s, u);
    assert Sound(s, SlotOf(s, u), EntryOf(s, u));
  }

  lemma {:induction false} HitKeepsInv(s: State, c: Caller, id: nat)
    requires Inv(s) && s.gui.Idle? && id < |s.entries|
    requires Issued(s, s.entries[id].uid) && s.log[s.entries[id].uid - 1].caller == c
    ensures Inv(Hit(s, c, id))
  {
    assert Sound(s, id, s.entries[id]);
    var s' := Hit(s, c, id);
    assert Active(s') == Active(s);
    if s' != s {
      forall i | 0 <= i < |s.entries| ensures Sound(s', i, s'.entries[i]) {
        assert Sound(s, i, s.entries[i]);
        SoundStays(s, s', i, s.entries[i]);
      }
      forall u | Pins(s, u) ensures Pins(s', u) && EntryOf(s', u) == EntryOf(s, u) {
        PinStays(s, s', id, u);
      }
      if !s.worker.Free? {
        WorkerPins(s);
      }
    }
  }

  lemma {:induction false} ClaimKeepsSlots(s: State, slot: nat)
    requires Inv(s) && s.gui.Searching? && s.gui.found.best == Some(slot)
    ensures Slots(ClaimSlot(s, slot))
  {
    var u := |s.log| + 1;
    var s' := ClaimSlot(s, slot);
    assert Active(s') == Active(s) + [u];
    assert u in Active(s');
    forall i | 0 <= i < |s.entries| ensures Sound(s', i, s'.entries[i]) {
      assert Sound(s, i, s.entries[i]);
      if i != slot {
        SoundStays(s, s', i, s.entries[i]);
      }
    }
  }

  lemma {:induction false} ClaimKeepsPinned(s: State, slot: nat)
    requires Inv(s) && s.gui.Searching? && s.gui.found.best == Some(slot)
    ensures Pinned(ClaimSlot(s, slot)) && LoadOk(ClaimSlot(s, slot))
  {
    var u := |s.log| + 1;
    var s' := ClaimSlot(s, slot);
    var q, q' := Active(s), Active(s');
    assert q' == q + [u];
    forall v | Pins(s, v) ensures Pins(s', v) && EntryOf(s', v) == EntryOf(s, v) && v < u {
      PinStays(s, s', slot, v);
    }
    forall v | v in q' ensures Pins(s', v) && v !in s.lost {
      assert v == u || v in q;
    }
    assert forall i :: 0 <= i < |q| ==> q[i] in q;
    if !s.worker.Free? {
      WorkerPins(s);
    }
  }

  /** The slot claimed was not handed out in this frame. */
  lemma {:induction false} ClaimKeepsInv(s: State, slot: nat)
    requires Inv(s) && s.gui.Searching? && s.gui.found.best == Some(slot)
    ensures Inv(ClaimSlot(s, slot)) && slot !in s.drawn
  {
    ClaimKeepsSlots(s, slot);
    ClaimKeepsPinned(s, slot);
    ShownStays(s, ClaimSlot(s, slot));
  }

  /** The entry that a step of the worker leaves in its slot. */
  function Filled(s: State, ok: bool): Entry
    requires !s.worker.Free? && WorkerOk(s)
  {
    EntryOf(LoadStep(s, ok), s.worker.uid)
  }

  lemma {:induction false} LoadIsLocal(s: State, ok: bool)
    requires Inv(s) && !s.worker.Free? && WorkerOk(s)
    ensures var s' := LoadStep(s, ok);
      && Follows(s, s') && s'.entries == s.entries[SlotOf(s, s.worker.uid) := Filled(s, ok)]
      && s' == s.(entries := s'.entries, worker := s'.worker)
      && Filled(s, ok).uid == s.worker.uid
      && Filled(s, ok).qr == (if s.worker.Releasing? then None else Some(s.worker.uid))
      && Sound(s', SlotOf(s, s.worker.uid), Filled(s, ok)) && LoadOk(s')
      && Active(s') == if s.worker.Releasing? then Active(s)[1..] else Active(s)
  {
    var u := s.worker.uid;
    WorkerPins(s);
    assert Sound(s, SlotOf(s, u), EntryOf(s, u));
    var s' := LoadStep(s, ok);
    if s.worker.Releasing? {
      assert Active(s') == Active(s)[1..];
    } else {
      assert Active(s') == Active(s);
    }
  }

  lemma {:induction false} LoadKeepsPinned(s: State, ok: bool)
    requires Inv(s) && !s.worker.Free? && WorkerOk(s)
    ensures Pinned(LoadStep(s, ok))
  {
    var u, s' := s.worker.uid, LoadStep(s, ok);
    WorkerPins(s);
    LoadIsLocal(s, ok);
    var q, q' := Active(s), Active(s');
    assert q[0] == u;
    forall v | Pins(s, v) && v != u ensures Pins(s', v) {
      PinStays(s, s', SlotOf(s, u), v);
    }
    IncreasingParts(q);
  }

  lemma {:induction false} LoadKeepsSlots(s: State, ok: bool)
    requires Inv(s) && !s.worker.Free? && WorkerOk(s)
    ensures Slots(LoadStep(s, ok))
  {
    var u, s' := s.worker.uid, LoadStep(s, ok);
    WorkerPins(s);
    LoadIsLocal(s, ok);
    assert Active(s)[0] == u;
    forall i | 0 <= i < |s.entries| ensures Sound(s', i, s'.entries[i]) {
      assert Sound(s, i, s.entries[i]);
      if i != SlotOf(s, u) {
        SoundStays(s, s', i, s.entries[i]);
      }
    }
  }

  lemma {:induction false} LoadKeepsDrawn(s: State, ok: bool)
    requires Inv(s) && !s.worker.Free? && WorkerOk(s)
    ensures SearchOk(LoadStep(s, ok)) && DrawnOk(LoadStep(s, ok))
  {
    WorkerPins(s);
    LoadIsLocal(s, ok);
  }

  lemma {:induction false} LoadKeepsInv(s: State, ok: bool)
    requires Inv(s) && !s.worker.Free? && WorkerOk(s)
    ensures Inv(LoadStep(s, ok))
  {
    LoadIsLocal(s, ok);
    LoadKeepsPinned(s, ok);
    LoadKeepsSlots(s, ok);
    LoadKeepsDrawn(s, ok);
    ShownStays(s, LoadStep(s, ok));
  }

  lemma {:induction false} StepKeepsInv(s: State, a: Step)
    requires Inv(s) && Enabled(s, a)
    ensures Inv(Next(s, a))
  {
    var s' := Next(s, a);
    match a
    case Get(c, id, u, v, delayed) =>
      if id >= 0 && s.entries[id].uid == u {
        HitKeepsInv(s, c, id);
      } else {
        Unmoved(s, s');
      }
    case Look =>
      if s.gui.i == |s.entries| && s.gui.found.best.Some? {
        ClaimKeepsInv(s, s.gui.found.best.value);
      } else {
        Unmoved(s, s');
      }
    case Work(ok) => LoadKeepsInv(s, ok);
    case Refuse => RefuseKeepsInv(s);
    case _ =>
      assert Active(s') == Active(s);
      Unmoved(s, s');
  }

  /** Steps that touch no slot and no request. */
  lemma {:induction false} Unmoved(s: State, s': State)
    requires Inv(s) && Follows(s, s') && s'.entries == s.entries && s'.lost == s.lost && s'.shown == s.shown
    requires Active(s') == Active(s) && SearchOk(s') && LoadOk(s') && DrawnOk(s')
    ensures Inv(s')
  {
    forall i | 0 <= i < |s.entries| ensures Sound(s', i, s'.entries[i]) {
      assert Sound(s, i, s.entries[i]);
      SoundStays(s, s', i, s.entries[i]);
    }
    forall u | Pins(s, u) ensures Pins(s', u) {
    }
    ShownStays(s, s');
  }

  lemma {:induction false} RefuseKeepsInv(s: State)
    requires Inv(s) && s.gui.Putting?
    ensures Inv(Next(s, Refuse))
  {
    var u := s.gui.uid;
    var s' := Next(s, Refuse);
    var q, q' := Active(s), Active(s');
    assert q == q' + [u];
    assert q' == q[..|q| - 1] && u in q;
    forall i | 0 <= i < |s.entries| ensures Sound(s', i, s'.entries[i]) {
      assert Sound(s, i, s.entries[i]);
      SoundStays(s, s', i, s.entries[i]);
    }
    assert Pinned(s') by {
      IncreasingParts(q);
      assert forall v :: Pins(s, v) ==> Pins(s', v);
    }
    ShownStays(s, s');
  }

  // ---- whole runs ----

  predicate Runs(s: State, run: seq<Step>)
    decreases |run|
  {
    run == [] || (Enabled(s, run[0]) && Runs(Next(s, run[0]), run[1..]))
  }

  function Final(s: State, run: seq<Step>): State
    requires Runs(s, run)
    decreases |run|
  {
    if run == [] then s else Final(Next(s, run[0]), run[1..])
  }

  lemma {:induction false} RunKeepsInv(s: State, run: seq<Step>)
    requires Inv(s) && Runs(s, run)
    ensures Inv(Final(s, run))
    decreases |run|
  {
    if run != [] {
      StepKeepsInv(s, run[0]);
      RunKeepsInv(Next(s, run[0]), run[1..]);
    }
  }

  /**
    After every run: each texture ever handed out was loaded for the value its caller passed when it got the UID;
    every request with the worker is for the slot's present UID, so the guard never fires; the slot about to be
    evicted has no pending request and was not handed out in this frame; and what was handed out in this frame is
    untouched.
   */
  lemma EveryRunIsSafe(init: State, run: seq<Step>)
    requires Initial(init) && Runs(init, run)
    ensures var s := Final(init, run);
      && ShownOk(s) && DrawnOk(s)
      && (!s.worker.Free? ==> Issued(s, s.worker.uid) && EntryOf(s, s.worker.uid).uid == s.worker.uid)
      && (s.gui.Searching? && s.gui.found.best.Some? ==>
            var b := s.gui.found.best.value;
            b < |s.entries| && s.entries[b].qr.None? && b !in s.drawn)
  {
    InitIsInv(init);
    RunKeepsInv(init, run);
    var s := Final(init, run);
    if !s.worker.Free? {
      WorkerPins(s);
    }
  }

  lemma {:induction false} DrawnStep(s: State, a: Step, i: nat)
    requires Inv(s) && Enabled(s, a) && a != NextFrame && i in s.drawn
    ensures var s' := Next(s, a);
      i in s'.drawn && i < |s'.entries| && i < |s.entries| && s'.entries[i] == s.entries[i]
  {
    if a.Work? {
      WorkerPins(s);
      LoadIsLocal(s, a.ok);
    }
  }

  /** Within a frame, `drawn` only grows: a texture handed out keeps its slot and its content until the next frame. */
  lemma {:induction false} DrawnStays(s: State, run: seq<Step>, i: nat)
    requires Inv(s) && Runs(s, run) && NextFrame !in run && i in s.drawn
    ensures var s' := Final(s, run);
      i in s'.drawn && i < |s'.entries| && i < |s.entries| && s'.entries[i] == s.entries[i]
    decreases |run|
  {
    if run != [] {
      var a := run[0];
      var s' := Next(s, a);
      StepKeepsInv(s, a);
      assert a == NextFrame || NextFrame !in run[1..];
      DrawnStep(s, a, i);
      DrawnStays(s', run[1..], i);
    }
  }

  // ---- refused requests ----

  lemma {:induction false} LostStays(s: State, run: seq<Step>)
    requires Inv(s) && Runs(s, run)
    ensures s.lost <= Final(s, run).lost
    ensures Refuse !in run ==> Final(s, run).lost == s.lost
    decreases |run|
  {
    if run != [] {
      StepKeepsInv(s, run[0]);
      assert run[0] == Refuse || (Refuse in run <==> Refuse in run[1..]);
      LostStays(Next(s, run[0]), run[1..]);
    }
  }

  /** A slot whose request is refused waits for ever: it is never filled, shown or evicted again. */
  lemma RefusedSlotIsLost(s: State, run: seq<Step>, u: nat)
    requires Inv(s) && u in s.lost && Runs(s, run)
    ensures Pins(Final(s, run), u)
  {
    RunKeepsInv(s, run);
    LostStays(s, run);
  }

  /** In every run, a waiting slot has its request under way if and only if that request was not refused. */
  lemma WaitingSlotsAreServed(init: State, run: seq<Step>, i: nat)
    requires Initial(init) && Runs(init, run)
    requires i < |Final(init, run).entries| && Final(init, run).entries[i].qr.Some?
    ensures var s := Final(init, run);
      Pins(s, s.entries[i].uid) && (s.entries[i].uid in Active(s) <==> s.entries[i].uid !in s.lost)
  {
    InitIsInv(init);
    RunKeepsInv(init, run);
    var s := Final(init, run);
    assert Sound(s, i, s.entries[i]);
  }

  /** Steps left until the drawing thread and the worker have dealt with all requests under way. */
  function Backlog(s: State): nat {
    6 * |s.queue| + (if s.gui.Putting? then 7 else 0)
    + match s.worker
      case Free => 0 case Guard(_) => 4 case Loading(_) => 3 case Marking(_, _) => 2 case Releasing(_) => 1
  }

  /** The next step towards the end of the requests under way. */
  function Onward(s: State): Step {
    if !s.worker.Free? then Work(true) else if s.queue != [] then Take else Put
  }

  lemma {:induction false} OnwardHelps(s: State)
    requires Inv(s) && Active(s) != []
    ensures Enabled(s, Onward(s)) && Backlog(Next(s, Onward(s))) < Backlog(s) && Next(s, Onward(s)).lost == s.lost
  {
    if !s.worker.Free? {
      WorkerPins(s);
    }
  }

  /** Every request under way can be brought to its end, which releases its slot. */
  lemma {:induction false} RequestIsServed(s: State, u: nat) returns (run: seq<Step>)
    requires Inv(s) && Pins(s, u) && u !in s.lost
    ensures Runs(s, run) && !Pins(Final(s, run), u) && Refuse !in run
    decreases Backlog(s)
  {
    assert Sound(s, SlotOf(s, u), EntryOf(s, u));
    assert u in Active(s);
    OnwardHelps(s);
    var a := Onward(s);
    StepKeepsInv(s, a);
    var s' := Next(s, a);
    var rest := [];
    if Pins(s', u) {
      rest := RequestIsServed(s', u);
    }
    run := [a] + rest;
    assert run[1..] == rest;
  }

  /** A pinned slot can be released again if and only if its request was not refused. */
  lemma {:induction false} LostExactlyWhenRefused(s: State, u: nat)
    requires Inv(s) && Pins(s, u)
    ensures (exists run :: Runs(s, run) && !Pins(Final(s, run), u)) <==> u !in s.lost
  {
    if u in s.lost {
      forall run | Runs(s, run) ensures Pins(Final(s, run), u) {
        RefusedSlotIsLost(s, run, u);
      }
    } else {
      var run := RequestIsServed(s, u);
      assert Runs(s, run) && !Pins(Final(s, run), u);
    }
  }

  // ---- what is shown ----

  /** The request is under way and its load has not failed; a load in frame 0 counts as failed. */
  predicate Hopeful(s: State, u: nat) {
    && Pins(s, u) && u !in s.lost && s.worker != Marking(u, false)
    && (s.worker == Releasing(u) ==> EntryOf(s, u).lastUsed != 0)
  }

  /** The slot holds the image that `u` was issued for. */
  predicate Showable(s: State, u: nat) {
    Issued(s, u) && EntryOf(s, u).uid == u && EntryOf(s, u).qr.None? && EntryOf(s, u).lastUsed != 0
  }

  /** Steps left until the drawing thread is idle, the first frame is over and the requests under way are dealt with. */
  function Delay(s: State): nat {
    (match s.gui
     case Idle => 0
     case Putting(_) => 8
     case Searching(_, _, i, _) => 10 + if i <= |s.entries| then |s.entries| - i else 0)
    + (if s.frame == 0 then 1 else 0) + 6 * |s.queue|
    + match s.worker
      case Free => 0 case Guard(_) => 4 case Loading(_) => 3 case Marking(_, _) => 2 case Releasing(_) => 1
  }

  /** The next step: the drawing thread's, until it is idle, then a frame, then the worker's. */
  function Forward(s: State): Step {
    match s.gui
    case Searching(_, _, _, _) => Look
    case Putting(_) => Put
    case Idle => if s.frame == 0 then NextFrame else Onward(s)
  }

  /** Two requests under way are for two slots. */
  lemma PinsDiffer(s: State, u: int, v: int)
    requires Pins(s, u) && Pins(s, v) && u != v
    ensures SlotOf(s, u) != SlotOf(s, v)
  {
  }

  lemma {:induction false} DrawingKeepsHope(s: State, u: nat)
    requires Inv(s) && Hopeful(s, u) && (!s.gui.Idle? || s.frame == 0)
    ensures Enabled(s, Forward(s)) && Delay(Next(s, Forward(s))) < Delay(s)
    ensures Hopeful(Next(s, Forward(s)), u)
    ensures Next(s, Forward(s)).shown == s.shown && s.log <= Next(s, Forward(s)).log
  {
    var s' := Next(s, Forward(s));
    if s.gui.Searching? && s.gui.i == |s.entries| && s.gui.found.best.Some? {
      PinStays(s, s', s.gui.found.best.value, u);
    }
  }

  lemma {:induction false} LoadKeepsHope(s: State, u: nat)
    requires Inv(s) && Hopeful(s, u) && s.frame > 0 && !s.worker.Free? && WorkerOk(s)
    ensures Hopeful(LoadStep(s, true), u) || Showable(LoadStep(s, true), u)
  {
    assert Sound(s, SlotOf(s, u), EntryOf(s, u));
    WorkerPins(s);
    LoadIsLocal(s, true);
    if s.worker.uid != u {
      PinsDiffer(s, u, s.worker.uid);
      PinStays(s, LoadStep(s, true), SlotOf(s, s.worker.uid), u);
    }
  }

  lemma {:induction false} WorkKeepsHope(s: State, u: nat)
    requires Inv(s) && Hopeful(s, u) && s.gui.Idle? && s.frame > 0
    ensures Enabled(s, Forward(s)) && Delay(Next(s, Forward(s))) < Delay(s)
    ensures var s' := Next(s, Forward(s));
      && (Hopeful(s', u) || Showable(s', u)) && s'.gui.Idle? && s'.shown == s.shown && s'.log == s.log
  {
    assert Sound(s, SlotOf(s, u), EntryOf(s, u));
    assert u in Active(s);
    OnwardHelps(s);
    if !s.worker.Free? {
      LoadKeepsHope(s, u);
    }
  }

  /** A filled slot is drawn when its caller asks for it. */
  lemma ShowableIsShown(s: State, u: nat)
    requires Inv(s) && Showable(s, u) && s.gui.Idle?
    ensures var j := s.log[u - 1];
      var a := Get(j.caller, j.slot, u, j.value, false);
      Enabled(s, a) && Next(s, a).shown == s.shown + [Shown(j.caller, u, Loaded(j.value))]
  {
    assert Sound(s, SlotOf(s, u), EntryOf(s, u));
  }

  /** A request under way whose load has not failed can be brought to where its caller is shown the image it wants. */
  lemma {:induction false} RequestIsShown(s: State, u: nat) returns (run: seq<Step>)
    requires Inv(s) && (Hopeful(s, u) || (Showable(s, u) && s.gui.Idle?))
    ensures Runs(s, run)
    ensures Final(s, run).shown == s.shown + [Shown(s.log[u - 1].caller, u, Loaded(s.log[u - 1].value))]
    decreases Delay(s)
  {
    var j := s.log[u - 1];
    if Showable(s, u) && s.gui.Idle? {
      ShowableIsShown(s, u);
      var a := Get(j.caller, j.slot, u, j.value, false);
      run := [a];
      assert run[1..] == [] && Final(Next(s, a), []) == Next(s, a);
    } else {
      if !s.gui.Idle? || s.frame == 0 {
        DrawingKeepsHope(s, u);
      } else {
        WorkKeepsHope(s, u);
      }
      var a := Forward(s);
      StepKeepsInv(s, a);
      assert Next(s, a).log[u - 1] == j;
      var rest := RequestIsShown(Next(s, a), u);
      run := [a] + rest;
      assert run[1..] == rest;
    }
  }

  /** The request can never be shown: refused, failed, or its slot given away. */
  predicate Hopeless(s: State, u: nat) {
    Issued(s, u) && !Showable(s, u) && !Hopeful(s, u)
  }

  lemma {:induction false} HopelessWork(s: State, ok: bool, u: nat)
    requires Inv(s) && !s.worker.Free? && WorkerOk(s) && Hopeless(s, u)
    ensures Hopeless(LoadStep(s, ok), u) && LoadStep(s, ok).shown == s.shown
  {
    assert Sound(s, SlotOf(s, u), EntryOf(s, u));
    WorkerPins(s);
    LoadIsLocal(s, ok);
  }

  lemma {:induction false} HopelessGet(s: State, a: Step, u: nat)
    requires Inv(s) && a.Get? && Enabled(s, a) && Hopeless(s, u)
    ensures Hopeless(Next(s, a), u)
    ensures Next(s, a).shown == s.shown || (|Next(s, a).shown| == |s.shown| + 1
              && s.shown <= Next(s, a).shown && Next(s, a).shown[|s.shown|].uid != u)
  {
    assert Sound(s, SlotOf(s, u), EntryOf(s, u));
    if a.cacheId >= 0 {
      assert Sound(s, a.cacheId, s.entries[a.cacheId]);
    }
  }

  lemma {:induction false} HopelessStep(s: State, a: Step, u: nat)
    requires Inv(s) && Enabled(s, a) && Hopeless(s, u)
    ensures Hopeless(Next(s, a), u)
    ensures s.shown <= Next(s, a).shown
    ensures forall k :: |s.shown| <= k < |Next(s, a).shown| ==> Next(s, a).shown[k].uid != u
  {
    if a.Work? {
      HopelessWork(s, a.ok, u);
    } else if a.Get? {
      HopelessGet(s, a, u);
    } else {
      assert Sound(s, SlotOf(s, u), EntryOf(s, u));
    }
  }

  lemma {:induction false} HopelessStays(s: State, run: seq<Step>, u: nat)
    requires Inv(s) && Runs(s, run) && Hopeless(s, u)
    ensures s.shown <= Final(s, run).shown
    ensures forall k :: |s.shown| <= k < |Final(s, run).shown| ==> Final(s, run).shown[k].uid != u
    decreases |run|
  {
    if run != [] {
      HopelessStep(s, run[0], u);
      StepKeepsInv(s, run[0]);
      HopelessStays(Next(s, run[0]), run[1..], u);
    }
  }

  /** The run shows something for `u` that had not been shown in `s`. */
  ghost predicate ShowsLater(s: State, run: seq<Step>, u: nat) {
    Runs(s, run) && exists k :: |s.shown| <= k < |Final(s, run).shown| && Final(s, run).shown[k].uid == u
  }

  /** A request with a pinned slot can still be shown if and only if it was not refused and its load has not failed. */
  lemma {:induction false} ShownExactly(s: State, u: nat)
    requires Inv(s) && Pins(s, u)
    ensures (exists run :: ShowsLater(s, run, u)) <==> Hopeful(s, u)
  {
    if Hopeful(s, u) {
      var run := RequestIsShown(s, u);
      var k := |s.shown|;
      assert Final(s, run).shown[k].uid == u;
      assert ShowsLater(s, run, u);
    } else {
      forall run ensures !ShowsLater(s, run, u) {
        if Runs(s, run) {
          HopelessStays(s, run, u);
        }
      }
    }
  }

  // ---- what is claimed ----

  /** A caller that has nothing yet and need not wait gets the oldest slot that may be evicted, for its own value. */
  lemma {:induction false} NewcomerClaims(s: State, caller: Caller, value: string, looks: seq<Step>)
    requires Inv(s) && s.gui.Idle? && |looks| == |s.entries| && forall k :: 0 <= k < |looks| ==> looks[k] == Look
    requires exists i :: 0 <= i < |s.entries| && Evictable(s.entries[i], s.frame)
    ensures var run := [Get(caller, -1, -1, value, false)] + looks + [Look];
      && Runs(s, run)
      && |Final(s, run).log| == |s.log| + 1
      && var j := Final(s, run).log[|s.log|];
         && j.caller == caller && j.value == value
         && Oldest(s.entries, |s.entries|, s.frame, Some(j.slot))
         && Final(s, run).gui == Putting(|s.log| + 1) && Pins(Final(s, run), |s.log| + 1)
  {
    var a := Get(caller, -1, -1, value, false);
    var s1 := Next(s, a);
    UninterruptedSearch(s1, looks);
    SearchFindsOldest(s.entries, 0, s.frame, Candidate(None, s.frame));
    var s2 := Final(s1, looks);
    var s3 := Next(s2, Look);
    assert Runs(s3, []) && Final(s3, []) == s3 && [Look][1..] == [];
    assert Runs(s2, [Look]) && Final(s2, [Look]) == s3;
    RunsConcat(s1, looks, [Look]);
    var run := [a] + looks + [Look];
    assert run[1..] == looks + [Look];
  }

  lemma {:induction false} RunsConcat(s: State, a: seq<Step>, b: seq<Step>)
    requires Runs(s, a) && Runs(Final(s, a), b)
    ensures Runs(s, a + b) && Final(s, a + b) == Final(Final(s, a), b)
    decreases |a|
  {
    if a == [] {
      assert a + b == b;
    } else {
      var s', ab := Next(s, a[0]), a + b;
      RunsConcat(s', a[1..], b);
      assert ab[0] == a[0] && ab[1..] == a[1..] + b;
      assert Final(s, a) == Final(s', a[1..]);
    }
  }

  /** A cache of one slot, and the first request refused. */
  lemma SomeSlotIsLost(init: State) returns (run: seq<Step>)
    requires Initial(init) && |init.entries| == 1
    ensures Runs(init, run) && Final(init, run).lost == {1} && Pins(Final(init, run), 1)
  {
    var a, b, c := Get(0, -1, -1, "a", false), Look, Refuse;
    var s1 := Next(init, a);
    var s2 := Next(s1, b);
    var s3 := Next(s2, b);
    var s4 := Next(s3, c);
    run := [a, b, b, c];
    assert run[1..] == [b, b, c] && [b, b, c][1..] == [b, c] && [b, c][1..] == [c] && [c][1..] == [];
    assert Runs(s4, []) && Final(s4, []) == s4;
    assert Runs(s3, [c]) && Final(s3, [c]) == s4;
    assert Runs(s2, [b, c]) && Final(s2, [b, c]) == s4;
    assert Runs(s1, [b, b, c]) && Final(s1, [b, b, c]) == s4;
  }

  // ---- the search, uninterrupted, is that of the cache ----

  /** Looking at all slots with no worker step in between claims the slot that `FindVictim` finds. */
  lemma {:induction false} UninterruptedSearch(s: State, run: seq<Step>)
    requires SearchOk(s) && s.gui.Searching? && |run| == |s.entries| - s.gui.i
    requires forall k :: 0 <= k < |run| ==> run[k] == Look
    ensures Runs(s, run)
    ensures Final(s, run) == s.(gui := s.gui.(i := |s.entries|, found := Search(s.entries, s.gui.i, s.gui.found)))
    decreases |run|
  {
    if run != [] {
      UninterruptedSearch(Next(s, Look), run[1..]);
    }
  }

  /** The worker's steps with nothing in between are the cache's `LoadImage`. */
  lemma UninterruptedLoad(s: State, ok: bool)
    requires Inv(s) && s.worker.Guard?
    ensures var run := [Work(ok), Work(ok), Work(ok), Work(ok)];
      && Runs(s, run) && Issued(s, s.worker.uid)
      && Final(s, run) == s.(worker := Free, entries := s.entries[SlotOf(s, s.worker.uid) :=
           Load(EntryOf(s, s.worker.uid), s.worker.uid, s.log[s.worker.uid - 1].value, ok, s.frame)])
  {
    WorkerPins(s);
    var a := Work(ok);
    var s1 := Next(s, a);
    var s2 := Next(s1, a);
    var s3 := Next(s2, a);
    var s4 := Next(s3, a);
    assert [a, a, a, a][1..] == [a, a, a] && [a, a, a][1..] == [a, a] && [a, a][1..] == [a] && [a][1..] == [];
    assert Runs(s4, []) && Final(s4, []) == s4;
    assert Enabled(s3, a) && Runs(s3, [a]) && Final(s3, [a]) == s4;
    assert Enabled(s2, a) && Runs(s2, [a, a]) && Final(s2, [a, a]) == s4;
    assert Runs(s1, [a, a, a]) && Final(s1, [a, a, a]) == s4;
  }
}
