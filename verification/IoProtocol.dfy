/**
  Every interleaving of `ioPutRequest`, `ioRemoveRequests`, `ioBlockOps` and the worker thread of src/ioman.c.
  A critical section of `gEndSemaId` is one step, and so is each unlocked read. `WakeupThread` counts.
 */
module IoProtocol {
  import opened IoQueue

  type Thread = nat
  /** The worker thread, which its own handlers run on. */
  const WORKER: Thread := 0

  /** Where the worker is. It holds `gProcSemaId` from `Head` to `Unlocking`. */
  datatype Worker = Sleeping | Locking | Head | Handling(id: nat) | Unlocking

  /** `Draining`: `ioBlockOps(1)` spins until the queue is empty. `Held`: it has returned. */
  datatype Block = Open | Draining | Held

  /**
    Requests are numbered in the order they are accepted: `log[i]` is request `i`. `putting` are the threads past
    the block test of `ioPutRequest`, with what they put; `waking` those past the enqueue, before the wake-up.
   */
  datatype State = State(
    log: seq<Request>,
    queue: seq<nat>,
    done: seq<nat>,
    removed: set<nat>,
    worker: Worker,
    wakeups: nat,
    putting: map<Thread, Request>,
    waking: set<Thread>,
    block: Block)

  datatype Step =
    | Begin(t: Thread, r: Request)
    | Enqueue(t: Thread)
    | Wake(t: Thread)
    | Remove(kind: int)
    | Work
    | BlockIo
    | SeeEmpty
    | Unblock

  const INIT: State := State([], [], [], {}, Sleeping, 0, map[], {}, Open)

  function Requests(log: seq<Request>, q: seq<nat>): (r: seq<Request>)
    requires forall i :: 0 <= i < |q| ==> q[i] < |log|
    ensures |r| == |q| && forall i :: 0 <= i < |q| ==> r[i] == log[q[i]]
  {
    seq(|q|, i requires 0 <= i < |q| => log[q[i]])
  }

  predicate InLog(s: State) {
    forall i :: 0 <= i < |s.queue| ==> s.queue[i] < |s.log|
  }

  /** The requests that are waiting, the one being handled included. */
  function Queue(s: State): seq<Request>
    requires InLog(s)
  {
    Requests(s.log, s.queue)
  }

  function Keep(q: seq<nat>, gone: set<nat>): seq<nat> {
    if q == [] then []
    else Keep(q[..|q| - 1], gone) + if q[|q| - 1] in gone then [] else [q[|q| - 1]]
  }

  function OfKind(s: State, kind: int): set<nat>
    requires InLog(s)
  {
    set i | 0 <= i < |s.queue| && s.log[s.queue[i]].kind == kind :: s.queue[i]
  }

  predicate Enabled(s: State, a: Step)
    requires InLog(s)
  {
    match a
    case Begin(t, r) =>
      s.block == Open && t !in s.putting && t !in s.waking && (t == WORKER ==> s.worker.Handling?)
    case Enqueue(t) => t in s.putting
    case Wake(t) => t in s.waking
    case Remove(_) => s.worker.Sleeping? || s.worker.Locking?
    case Work =>
      match s.worker {
        case Sleeping => s.wakeups > 0
        case Handling(_) => s.queue != [] && WORKER !in s.putting && WORKER !in s.waking
        case _ => true
      }
    case BlockIo => s.block == Open
    case SeeEmpty => s.block == Draining && s.queue == []
    case Unblock => s.block == Held
  }

  function Next(s: State, a: Step): State
    requires InLog(s) && Enabled(s, a)
  {
    match a
    case Begin(t, r) => s.(putting := s.putting[t := r])
    case Enqueue(t) => Accept(s, t)
    // WakeupThread fails for the calling thread itself
    case Wake(t) => s.(waking := s.waking - {t}, wakeups := if t == WORKER then s.wakeups else s.wakeups + 1)
    case Remove(kind) =>
      var gone := OfKind(s, kind);
      s.(queue := Keep(s.queue, gone), removed := s.removed + gone)
    case Work =>
      (match s.worker
       case Sleeping => s.(worker := Locking, wakeups := s.wakeups - 1)
       case Locking => s.(worker := Head)
       case Head => s.(worker := if s.queue == [] then Unlocking else Handling(s.queue[0]))
       case Handling(id) => s.(worker := Head, queue := s.queue[1..], done := s.done + [s.queue[0]])
       case Unlocking => s.(worker := Sleeping))
    case BlockIo => s.(block := Draining)
    case SeeEmpty => s.(block := Held)
    case Unblock => s.(block := Open)
  }

  function Accept(s: State, t: Thread): State
    requires InLog(s) && t in s.putting
  {
    var r := s.putting[t];
    if Deferred(r) && r in Queue(s) then s.(putting := s.putting - {t})
    else s.(log := s.log + [r], queue := s.queue + [|s.log|], putting := s.putting - {t}, waking := s.waking + {t})
  }

  // ---- what every step keeps ----

  /** The requests below `n` that were not removed, in order. */
  function Survivors(n: nat, removed: set<nat>): seq<nat> {
    if n == 0 then []
    else Survivors(n - 1, removed) + if n - 1 in removed then [] else [n - 1]
  }

  /** Handled requests, then queued ones, are exactly the accepted ones that were not removed, in order. */
  predicate Conserved(s: State) {
    s.done + s.queue == Survivors(|s.log|, s.removed) && forall i :: i in s.removed ==> i < |s.log|
  }

  predicate NoDoubles(q: seq<Request>) {
    forall i, j :: 0 <= i < j < |q| && Deferred(q[i]) ==> q[i] != q[j]
  }

  /** A handler runs only for the head of the queue, and only a handler puts from the worker thread. */
  predicate HandlesHead(s: State) {
    && (s.worker.Handling? ==> s.queue != [] && s.queue[0] == s.worker.id)
    && (WORKER in s.putting || WORKER in s.waking ==> s.worker.Handling?)
    && s.putting.Keys !! s.waking
  }

  predicate Asleep(s: State) {
    s.wakeups == 0 && (s.worker.Sleeping? || s.worker.Unlocking?)
  }

  /** A waiting request and a worker going to sleep without a wake-up: some other thread is about to wake it. */
  predicate WillWake(s: State) {
    s.queue != [] && Asleep(s) ==> s.waking != {}
  }

  predicate Inv(s: State) {
    && InLog(s) && Conserved(s) && NoDoubles(Queue(s)) && HandlesHead(s) && WillWake(s)
  }

  lemma {:induction false} SurvivorsAre(n: nat, removed: set<nat>)
    ensures forall i :: i in Survivors(n, removed) <==> 0 <= i < n && i !in removed
    ensures forall j, k :: 0 <= j < k < |Survivors(n, removed)| ==> Survivors(n, removed)[j] < Survivors(n, removed)[k]
  {
    if n > 0 {
      SurvivorsAre(n - 1, removed);
      var p := Survivors(n - 1, removed);
      assert forall k :: 0 <= k < |p| ==> p[k] in p;
    }
  }

  lemma {:induction false} SurvivorsAgree(n: nat, removed: set<nat>, more: set<nat>)
    ensures Survivors(n, removed + more) == Keep(Survivors(n, removed), more)
  {
    if n > 0 {
      SurvivorsAgree(n - 1, removed, more);
      var p := Survivors(n - 1, removed);
      if n - 1 in removed {
        assert Survivors(n, removed) == p;
      } else {
        var q := p + [n - 1];
        assert Survivors(n, removed) == q;
        assert q[..|q| - 1] == p && q[|q| - 1] == n - 1;
      }
    }
  }

  lemma {:induction false} KeepConcat(p: seq<nat>, q: seq<nat>, gone: set<nat>)
    ensures Keep(p + q, gone) == Keep(p, gone) + Keep(q, gone)
  {
    if q == [] {
      assert p + q == p;
    } else {
      var pq := p + q;
      assert pq[..|pq| - 1] == p + q[..|q| - 1];
      KeepConcat(p, q[..|q| - 1], gone);
    }
  }

  lemma {:induction false} KeepAll(q: seq<nat>, gone: set<nat>)
    requires forall i :: 0 <= i < |q| ==> q[i] !in gone
    ensures Keep(q, gone) == q
  {
    if q != [] {
      KeepAll(q[..|q| - 1], gone);
      assert q == q[..|q| - 1] + [q[|q| - 1]];
    }
  }

  lemma {:induction false} KeepInLog(log: seq<Request>, q: seq<nat>, gone: set<nat>, kind: int)
    requires forall i :: 0 <= i < |q| ==> q[i] < |log| && (q[i] in gone <==> log[q[i]].kind == kind)
    ensures forall i :: 0 <= i < |Keep(q, gone)| ==> Keep(q, gone)[i] < |log|
    ensures Requests(log, Keep(q, gone)) == Without(Requests(log, q), kind)
  {
    if q != [] {
      var p := q[..|q| - 1];
      KeepInLog(log, p, gone, kind);
      assert Requests(log, q)[..|q| - 1] == Requests(log, p);
    }
  }

  lemma {:induction false} WithoutKeepsNoDoubles(q: seq<Request>, kind: int)
    requires NoDoubles(q)
    ensures NoDoubles(Without(q, kind)) && forall r :: r in Without(q, kind) ==> r in q
  {
    if q != [] {
      var p := q[..|q| - 1];
      WithoutKeepsNoDoubles(p, kind);
      var w := Without(p, kind);
      forall i | 0 <= i < |w| && Deferred(w[i]) ensures w[i] != q[|q| - 1] {
        assert w[i] in p;
      }
    }
  }

  /** The three critical sections act on the queue as the operations of the request list do. */
  lemma {:induction false} StepIsQueueStep(s: State, a: Step)
    requires Inv(s) && Enabled(s, a)
    ensures InLog(Next(s, a))
    ensures Queue(Next(s, a)) ==
      match a
      case Enqueue(t) => Put(Queue(s), s.putting[t])
      case Remove(kind) => Without(Queue(s), kind)
      case Work => if s.worker.Handling? then Queue(s)[1..] else Queue(s)
      case _ => Queue(s)
  {
    match a
    case Remove(kind) => KeepInLog(s.log, s.queue, OfKind(s, kind), kind);
    case _ =>
  }

  lemma {:induction false} RemoveConserves(s: State, kind: int)
    requires Inv(s)
    ensures s.done + Keep(s.queue, OfKind(s, kind)) == Survivors(|s.log|, s.removed + OfKind(s, kind))
  {
    var gone := OfKind(s, kind);
    var all := s.done + s.queue;
    SurvivorsAre(|s.log|, s.removed);
    forall i | 0 <= i < |s.done| ensures s.done[i] !in gone {
      assert all[i] == s.done[i];
      assert forall j :: 0 <= j < |s.queue| ==> s.queue[j] == all[|s.done| + j];
    }
    KeepAll(s.done, gone);
    KeepConcat(s.done, s.queue, gone);
    SurvivorsAgree(|s.log|, s.removed, gone);
  }

  lemma {:induction false} StepConserves(s: State, a: Step)
    requires Inv(s) && Enabled(s, a)
    ensures Conserved(Next(s, a))
  {
    match a
    case Remove(kind) => RemoveConserves(s, kind);
    case Work =>
      if s.worker.Handling? {
        assert s.done + s.queue == s.done + [s.queue[0]] + s.queue[1..];
      }
    case Enqueue(t) =>
      assert s.done + (s.queue + [|s.log|]) == (s.done + s.queue) + [|s.log|];
    case _ =>
  }

  lemma {:induction false} StepKeepsWakeUps(s: State, a: Step)
    requires InLog(s) && HandlesHead(s) && WillWake(s) && Enabled(s, a)
    ensures HandlesHead(Next(s, a)) && WillWake(Next(s, a))
  {
    match a
    case Remove(kind) => assert s.queue == [] ==> Keep(s.queue, OfKind(s, kind)) == [];
    case _ =>
  }

  lemma {:induction false} StepKeepsInv(s: State, a: Step)
    requires Inv(s) && Enabled(s, a)
    ensures Inv(Next(s, a))
  {
    StepIsQueueStep(s, a);
    StepConserves(s, a);
    StepKeepsWakeUps(s, a);
    match a
    case Remove(kind) => WithoutKeepsNoDoubles(Queue(s), kind);
    case _ =>
  }

  // ---- whole runs ----

  /** `run` can be taken from `s`. */
  predicate Runs(s: State, run: seq<Step>)
    decreases |run|
  {
    run == [] || (InLog(s) && Enabled(s, run[0]) && Runs(Next(s, run[0]), run[1..]))
  }

  function Final(s: State, run: seq<Step>): State
    requires Runs(s, run)
    decreases |run|
  {
    if run == [] then s else Final(Next(s, run[0]), run[1..])
  }

  lemma {:induction false} RunKeepsInv(s: State, run: seq<Step>)
    requires Inv(s) && Runs(s, run)
    ensures Inv(Final(s, run))
    decreases |run|
  {
    if run != [] {
      StepKeepsInv(s, run[0]);
      RunKeepsInv(Next(s, run[0]), run[1..]);
    }
  }

  /**
    After every run: first in, first out; nothing is lost or handled twice; an empty queue means that no handler is
    running; and a request never waits for a worker that sleeps with no wake-up pending or on its way.
   */
  lemma EveryRunIsSafe(run: seq<Step>)
    requires Runs(INIT, run)
    ensures var s := Final(INIT, run);
      && s.done + s.queue == Survivors(|s.log|, s.removed)
      && InLog(s) && NoDoubles(Queue(s))
      && (s.queue == [] ==> !s.worker.Handling?)
      && (s.queue != [] && s.worker.Sleeping? && s.wakeups == 0 ==> exists t :: t in s.waking && t != WORKER)
  {
    RunKeepsInv(INIT, run);
    var s := Final(INIT, run);
    if s.queue != [] && s.worker.Sleeping? && s.wakeups == 0 {
      var t :| t in s.waking;
      assert t != WORKER;
    }
  }

  // ---- what is accepted ----

  /**
    The requests that a run should accept, told from its steps: each thread puts what it began with, and only a
    request of type 2 or 4 is dropped, when an equal one is queued at that moment. `pending` are the requests begun.
   */
  function Accepted(s: State, pending: map<Thread, Request>, run: seq<Step>): seq<Request>
    requires Runs(s, run)
    decreases |run|
  {
    if run == [] then []
    else
      var a, rest := run[0], run[1..];
      match a
      case Begin(t, r) => Accepted(Next(s, a), pending[t := r], rest)
      case Enqueue(t) =>
        (if t !in pending || ((pending[t].kind == 2 || pending[t].kind == 4) && pending[t] in Queue(s)) then []
         else [pending[t]])
        + Accepted(Next(s, a), pending - {t}, rest)
      case _ => Accepted(Next(s, a), pending, rest)
  }

  lemma {:induction false} AcceptsExactly(s: State, run: seq<Step>)
    requires Inv(s) && Runs(s, run)
    ensures Final(s, run).log == s.log + Accepted(s, s.putting, run)
    decreases |run|
  {
    if run != [] {
      StepKeepsInv(s, run[0]);
      AcceptsExactly(Next(s, run[0]), run[1..]);
    }
  }

  /**
    In every run the requests accepted are exactly those that were put, in the order in which they reached the queue,
    less the deferred updates that had an equal one queued.
   */
  lemma EveryPutIsAccepted(run: seq<Step>)
    requires Runs(INIT, run)
    ensures Final(INIT, run).log == Accepted(INIT, map[], run)
  {
    AcceptsExactly(INIT, run);
  }

  // ---- progress ----

  /** The steps needed to finish what has been started: wake-ups under way, the handler's own puts, the worker. */
  predicate Helps(a: Step) {
    a.Work? || a.Wake? || (a.Enqueue? && a.t == WORKER)
  }

  /** The worker's distance from having handled the head of the queue. */
  function Distance(s: State): nat {
    (match s.worker
     case Unlocking => 8 case Sleeping => 7 case Locking => 5 case Head => 4 case Handling(_) => 1)
    + (if Asleep(s) then 1 else 0)
    + (if WORKER in s.putting then 2 else if WORKER in s.waking then 1 else 0)
  }

  /** From every reachable state with a waiting request the head request can be brought to its end. */
  lemma {:induction false} HeadIsHandled(s: State) returns (run: seq<Step>)
    requires Inv(s) && s.queue != []
    ensures Runs(s, run) && Final(s, run).done == s.done + [s.queue[0]]
    ensures forall i :: 0 <= i < |run| ==> Helps(run[i])
    decreases Distance(s)
  {
    var a: Step;
    if WORKER in s.putting {
      a := Enqueue(WORKER);
    } else if WORKER in s.waking {
      a := Wake(WORKER);
    } else if s.worker.Sleeping? && s.wakeups == 0 {
      var t :| t in s.waking;
      a := Wake(t);
    } else {
      a := Work;
    }
    StepKeepsInv(s, a);
    var s' := Next(s, a);
    if a == Work && s.worker.Handling? {
      run := [a];
      assert Final(s', run[1..]) == s';
    } else {
      assert s'.queue[0] == s.queue[0];
      var rest := HeadIsHandled(s');
      run := [a] + rest;
      assert run[1..] == rest;
    }
  }

  // ---- blocking ----

  predicate Quiet(s: State) {
    s.queue == [] && s.putting == map[] && s.block == Held
  }

  lemma {:induction false} QuietStays(s: State, run: seq<Step>)
    requires Inv(s) && Quiet(s) && Runs(s, run) && Unblock !in run
    ensures Quiet(Final(s, run)) && !Final(s, run).worker.Handling?
    decreases |run|
  {
    if run != [] {
      StepKeepsInv(s, run[0]);
      assert Unblock == run[0] || Unblock !in run[1..];
      QuietStays(Next(s, run[0]), run[1..]);
    }
  }

  /**
    Once `ioBlockOps(1)` has seen the queue empty, the queue stays empty and no handler runs until the block is
    lifted, exactly when no thread was still between the block test and the enqueue of `ioPutRequest`.
   */
  lemma {:induction false} BlockHoldsExactly(s: State)
    requires Inv(s) && s.block == Held && s.queue == []
    ensures (forall run :: Runs(s, run) && Unblock !in run ==>
              Final(s, run).queue == [] && !Final(s, run).worker.Handling?) <==> s.putting == map[]
  {
    if s.putting == map[] {
      forall run | Runs(s, run) && Unblock !in run
        ensures Final(s, run).queue == [] && !Final(s, run).worker.Handling?
      {
        QuietStays(s, run);
      }
    } else {
      var t :| t in s.putting;
      var run := [Enqueue(t)];
      assert Runs(s, run) && Unblock !in run;
      assert Final(Next(s, run[0]), run[1..]) == Next(s, run[0]);
      assert Final(s, run).queue != [];
    }
  }

  /** The exception happens: a put that passed the test just before the flag was set lands in the blocked queue. */
  lemma PutSlipsPastTheBlock() returns (run: seq<Step>)
    ensures Runs(INIT, run) && Final(INIT, run).block == Held && Final(INIT, run).queue != []
  {
    var a, b, c, d := Begin(1, Request(IO_CACHE_LOAD_ART, 0)), BlockIo, SeeEmpty, Enqueue(1);
    var s1 := Next(INIT, a);
    var s2 := Next(s1, b);
    var s3 := Next(s2, c);
    var s4 := Next(s3, d);
    assert Runs(s4, []) && Runs(s3, [d]);
    assert Runs(s2, [c, d]);
    assert Runs(s1, [b, c, d]);
    run := [a, b, c, d];
    assert run[1..] == [b, c, d] && [b, c, d][1..] == [c, d] && [c, d][1..] == [d] && [d][1..] == [];
    assert Final(s3, [d]) == s4;
    assert Final(s2, [c, d]) == s4;
    assert Final(s1, [b, c, d]) == s4;
  }
}
