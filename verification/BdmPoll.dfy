/**
  The debouncing of src/bdmsupport.c, lines 249-267, cut at each access to the counters: the event handler interrupts
  a poll wherever it likes, and frames go by. Polls are made by one thread.
 */
module BdmPoll {
  import Bdm

  /** What the poll does next. `Assign` remembers whether a pending unmount led there. */
  datatype Stage =
    | Idle
    | Compare          // BdmStableGeneration != BdmGeneration
    | Look             // BdmPendingGeneration != BdmGeneration
    | Note             // BdmPendingGeneration = BdmGeneration
    | Stamp            // BdmPendingSinceFrame = guiFrameId
    | FirstTest        // !BdmUnmountPending
    | SecondTest       // !BdmUnmountPending
    | FrameTest        // guiFrameId - BdmPendingSinceFrame < BDM_EVENT_QUIET_FRAMES
    | Assign(forced: bool)   // BdmStableGeneration = BdmGeneration
    | Clear            // BdmUnmountPending = 0

  /**
    `lastEvent` is the frame of the last event. `tested` is the generation that this poll found pending or noted,
    `testedEvent` the frame of the last event it counts, and `testedFrame` the frame in which it did so.
   */
  datatype State = State(
    generation: nat, stable: nat, pending: nat, since: int, unmount: bool, frame: int, stage: Stage,
    lastEvent: int, tested: nat, testedEvent: int, testedFrame: int)

  datatype Step = EventStep(e: Bdm.Event) | FrameStep | PollStep

  const INIT: State := State(0, 0, 0, 0, false, 0, Idle, 0, 0, 0, 0)

  function PollDo(s: State): State {
    match s.stage
    case Idle => s.(stage := Compare)
    case Compare => s.(stage := if s.stable != s.generation then Look else Idle)
    case Look =>
      if s.pending != s.generation then s.(stage := Note)
      else Tested(s).(stage := SecondTest)
    case Note => Tested(s).(pending := s.generation, stage := Stamp)
    case Stamp => s.(since := s.frame, stage := FirstTest)
    case FirstTest => s.(stage := if !s.unmount then Idle else SecondTest)
    case SecondTest => s.(stage := if !s.unmount then FrameTest else Assign(true))
    case FrameTest => s.(stage := if s.frame - s.since < Bdm.EVENT_QUIET_FRAMES then Idle else Assign(false))
    case Assign(_) => s.(stable := s.generation, stage := Clear)
    case Clear => s.(unmount := false, stage := Idle)
  }

  function Tested(s: State): State {
    s.(tested := s.generation, testedEvent := s.lastEvent, testedFrame := s.frame)
  }

  function Next(s: State, a: Step): State {
    match a
    case EventStep(e) =>
      s.(generation := s.generation + 1, lastEvent := s.frame,
         unmount := match e case Unmount => true case Mount => false case Other => s.unmount)
    case FrameStep => s.(frame := s.frame + 1)
    case PollStep => PollDo(s)
  }

  // ---- what every step keeps ----

  /** The poll has found or noted a generation. */
  predicate Testing(s: State) {
    s.stage.Stamp? || Stamped(s)
  }

  predicate Stamped(s: State) {
    s.stage.FirstTest? || s.stage.SecondTest? || s.stage.FrameTest? || s.stage.Assign?
  }

  predicate Inv(s: State) {
    && s.lastEvent <= s.frame && s.pending <= s.generation && s.stable <= s.generation
    && (s.pending == s.generation && !s.stage.Stamp? ==> s.lastEvent <= s.since)
    && (Testing(s) ==> s.tested == s.pending && s.testedEvent <= s.testedFrame <= s.frame)
    && (Testing(s) ==> if s.tested == s.generation then s.testedEvent == s.lastEvent else s.testedFrame <= s.lastEvent)
    && (Stamped(s) ==> s.testedEvent <= s.since)
    && (s.stage == Assign(false) ==> s.frame - s.since >= Bdm.EVENT_QUIET_FRAMES)
    && (s.stage == Assign(true) && s.tested == s.generation ==> s.unmount)
  }

  lemma StepKeepsInv(s: State, a: Step)
    requires Inv(s)
    ensures Inv(Next(s, a))
  {
  }

  function Final(s: State, run: seq<Step>): State {
    if run == [] then s else Next(Final(s, run[..|run| - 1]), run[|run| - 1])
  }

  lemma {:induction false} RunKeepsInv(s: State, run: seq<Step>)
    requires Inv(s)
    ensures Inv(Final(s, run))
  {
    if run != [] {
      RunKeepsInv(s, run[..|run| - 1]);
      StepKeepsInv(Final(s, run[..|run| - 1]), run[|run| - 1]);
    }
  }

  /** The events of a run since a poll last found a generation pending, or noted one. */
  function EventsSinceTest(run: seq<Step>): nat {
    if run == [] then 0
    else
      var before, a := run[..|run| - 1], run[|run| - 1];
      var s := Final(INIT, before);
      if a.EventStep? then EventsSinceTest(before) + 1
      else if a.PollStep? && (s.stage.Note? || (s.stage.Look? && s.pending == s.generation)) then 0
      else EventsSinceTest(before)
  }

  lemma {:induction false} EventsAreCounted(run: seq<Step>)
    ensures var s := Final(INIT, run); Testing(s) ==> s.generation == s.tested + EventsSinceTest(run)
  {
    if run != [] {
      EventsAreCounted(run[..|run| - 1]);
    }
  }

  /** An unmount is pending, or there was no event for 180 frames: the generation may become stable. */
  predicate Due(s: State) {
    s.unmount || s.frame - s.lastEvent >= Bdm.EVENT_QUIET_FRAMES
  }

  /**
    Wherever events interrupt it: when a poll of less than 180 frames is about to make the present generation stable,
    that is due if and only if no event came since the poll tested it, or an unmount is pending all the same.
   */
  lemma EveryAdvanceIsDueExactly(run: seq<Step>)
    requires var s := Final(INIT, run); s.stage.Assign? && s.frame - s.testedFrame < Bdm.EVENT_QUIET_FRAMES
    ensures var s := Final(INIT, run); Due(s) <==> EventsSinceTest(run) == 0 || s.unmount
  {
    RunKeepsInv(INIT, run);
    EventsAreCounted(run);
  }

  /** What the poll tested was due, whatever came afterwards. */
  lemma EveryAdvanceWasTested(run: seq<Step>)
    requires Final(INIT, run).stage.Assign?
    ensures var s := Final(INIT, run);
      s.stage.forced || s.frame - s.testedEvent >= Bdm.EVENT_QUIET_FRAMES
  {
    RunKeepsInv(INIT, run);
  }

  // ---- an event that is swallowed ----

  lemma {:induction false} FramesPass(s: State, n: nat)
    ensures Final(s, seq(n, _ => FrameStep)) == s.(frame := s.frame + n)
  {
    var run := seq(n, _ => FrameStep);
    if n > 0 {
      FramesPass(s, n - 1);
      assert run[..n - 1] == seq(n - 1, _ => FrameStep);
    }
  }

  lemma {:induction false} FinalConcat(s: State, a: seq<Step>, b: seq<Step>)
    ensures Final(s, a + b) == Final(Final(s, a), b)
  {
    if b == [] {
      assert a + b == a;
    } else {
      var init := b[..|b| - 1];
      FinalConcat(s, a, init);
      assert (a + b)[..|a + b| - 1] == a + init;
    }
  }

  function Polled(s: State, n: nat): State {
    if n == 0 then s else PollDo(Polled(s, n - 1))
  }

  lemma {:induction false} PollsPass(s: State, n: nat)
    ensures Final(s, seq(n, _ => PollStep)) == Polled(s, n)
  {
    if n > 0 {
      PollsPass(s, n - 1);
      assert seq(n, _ => PollStep)[..n - 1] == seq(n - 1, _ => PollStep);
    }
  }

  /** A mount has been noted at frame 0; 180 frames later a poll is about to make it stable. */
  const NOTED: State := State(1, 0, 1, 0, false, 0, Idle, 0, 1, 0, 0)
  const PASSED: State := State(1, 0, 1, 0, false, 180, Assign(false), 0, 1, 0, 180)

  lemma NotedIsReached() returns (run: seq<Step>)
    ensures Final(INIT, run) == NOTED
  {
    var event := EventStep(Bdm.Mount);
    OneStep(INIT, event);
    PollNotes(Next(INIT, event));
    PollsPass(Next(INIT, event), 6);
    FinalConcat(INIT, [event], seq(6, _ => PollStep));
    run := [event] + seq(6, _ => PollStep);
  }

  lemma PassedIsReached() returns (run: seq<Step>)
    ensures Final(NOTED, run) == PASSED
  {
    FramesPass(NOTED, 180);
    PollPasses(NOTED.(frame := 180));
    PollsPass(NOTED.(frame := 180), 5);
    FinalConcat(NOTED, seq(180, _ => FrameStep), seq(5, _ => PollStep));
    run := seq(180, _ => FrameStep) + seq(5, _ => PollStep);
  }

  /** An event between the last test and the assignment becomes part of the stable generation at once. */
  lemma SomeEventIsSwallowed() returns (run: seq<Step>)
    ensures var s := Final(INIT, run);
      && s.stage == Assign(false) && s.testedFrame == s.lastEvent == s.frame && !Due(s)
      && EventsSinceTest(run) == 1 && PollDo(s).stable == s.generation
  {
    var first := NotedIsReached();
    var second := PassedIsReached();
    FinalConcat(INIT, first, second);
    var before := first + second;
    OneStep(PASSED, EventStep(Bdm.Mount));
    FinalConcat(INIT, before, [EventStep(Bdm.Mount)]);
    run := before + [EventStep(Bdm.Mount)];
    EventsAreCounted(run);
  }

  lemma OneStep(s: State, a: Step)
    ensures Final(s, [a]) == Next(s, a)
  {
    assert [a][..0] == [];
  }

  /** The first poll after an event notes it and returns. */
  lemma PollNotes(s: State)
    requires s.stage == Idle && s.stable != s.generation && s.pending != s.generation && !s.unmount
    ensures Polled(s, 6) == Tested(s).(pending := s.generation, since := s.frame)
  {
    assert Polled(s, 1) == s.(stage := Compare);
    assert Polled(s, 2) == s.(stage := Look);
    assert Polled(s, 3) == s.(stage := Note);
    assert Polled(s, 4) == Tested(s).(stage := Stamp, pending := s.generation);
  }

  /** A poll that finds the generation quiet is about to assign it. */
  lemma PollPasses(s: State)
    requires s.stage == Idle && s.stable != s.generation == s.pending && !s.unmount && s.frame - s.since >= 180
    ensures Polled(s, 5) == Tested(s).(stage := Assign(false))
  {
    assert Polled(s, 1) == s.(stage := Compare);
    assert Polled(s, 2) == s.(stage := Look);
    assert Polled(s, 3) == Tested(s).(stage := SecondTest);
    assert Polled(s, 4) == Tested(s).(stage := FrameTest);
  }

  // ---- an uninterrupted poll ----

  function Rank(stage: Stage): nat {
    match stage
    case Idle => 10 case Compare => 9 case Look => 8 case Note => 7 case Stamp => 6
    case FirstTest => 5 case SecondTest => 4 case FrameTest => 3 case Assign(_) => 2 case Clear => 1
  }

  /** The poll carried through from its present stage. */
  function Through(s: State): State
    requires s.stage != Idle
    decreases Rank(s.stage)
  {
    var t := PollDo(s);
    if t.stage == Idle then t else Through(t)
  }

  function Counters(s: State, devices: seq<Bdm.Device>): Bdm.Core {
    Bdm.Core(s.generation, s.stable, s.pending, s.since, s.unmount, devices)
  }

  lemma EndOfPoll(s: State)
    requires s.stage == SecondTest
    ensures var t := Through(s);
      && t.generation == s.generation && t.pending == s.pending && t.since == s.since
      && (if !s.unmount && s.frame - s.since < Bdm.EVENT_QUIET_FRAMES
        then t.stable == s.stable && t.unmount == s.unmount
          else t.stable == s.generation && !t.unmount)
  {
    var a := PollDo(s);
    assert Through(s) == Through(a);
    if a.stage == FrameTest {
      var b := PollDo(a);
      if b.stage != Idle {
        assert Through(a) == Through(b);
        AssignAndClear(b);
      }
    } else {
      AssignAndClear(a);
    }
  }

  lemma AssignAndClear(s: State)
    requires s.stage.Assign?
    ensures Through(s) == s.(stable := s.generation, unmount := false, stage := Idle)
  {
    var a := PollDo(s);
    assert Through(s) == Through(a) == PollDo(a);
  }

  /** A poll that is not interrupted changes the counters as `Debounced` says. */
  lemma UninterruptedPoll(s: State, devices: seq<Bdm.Device>)
    requires s.stage == Compare
    ensures Counters(Through(s), devices) == Bdm.Debounced(Counters(s, devices), s.frame)
  {
    var a := PollDo(s);
    if a.stage == Look {
      var b := PollDo(a);
      assert Through(s) == Through(a) == Through(b);
      if b.stage == SecondTest {
        EndOfPoll(b);
      } else {
        var c := PollDo(b);
        var d := PollDo(c);
        assert Through(b) == Through(c) == Through(d);
        if s.unmount {
          EndOfPoll(PollDo(d));
        }
      }
    }
  }

  // ---- an unmount that is forgotten ----

  /** The poll under way, if any, is carried through, and then another one. */
  function NextPoll(s: State): State {
    var t := if s.stage == Idle then s else Through(s);
    Through(t.(stage := Compare))
  }

  lemma {:induction false} ThroughEnds(s: State)
    requires s.stage != Idle
    ensures Through(s).stage == Idle && Through(s).generation == s.generation && Through(s).frame == s.frame
    decreases Rank(s.stage)
  {
    var t := PollDo(s);
    if t.stage != Idle {
      ThroughEnds(t);
    }
  }

  /** A poll carried through with an unmount pending leaves it pending, or has made the generation stable. */
  lemma {:induction false} PendingUnmountIsKept(s: State)
    requires s.stage != Idle && s.stage != Clear && s.unmount
    ensures Through(s).unmount || Through(s).stable == s.generation
    decreases Rank(s.stage)
  {
    var t := PollDo(s);
    if s.stage.Assign? {
      AssignAndClear(s);
    } else if t.stage != Idle {
      PendingUnmountIsKept(t);
    }
  }

  /** A whole poll makes the generation stable if an unmount is pending, and does not if the event is new and none
      is. */
  lemma WholePoll(s: State)
    requires s.stage == Compare
    ensures s.unmount || s.stable == s.generation ==> Through(s).stable == s.generation
    ensures !s.unmount && s.stable != s.generation && s.pending != s.generation ==> Through(s).stable != s.generation
  {
    UninterruptedPoll(s, []);
  }

  /**
    An unmount that arrives at any moment has become stable when the poll under way and the next one are through,
    unless it came between the assignment and the clearing of the flag: then, and only then, it is forgotten and has
    to wait for 180 quiet frames.
   */
  lemma UnmountIsActedOnExactly(run: seq<Step>)
    ensures var s := Next(Final(INIT, run), EventStep(Bdm.Unmount));
      NextPoll(s).stable == s.generation <==> s.stage != Clear
  {
    RunKeepsInv(INIT, run);
    var before := Final(INIT, run);
    var s := Next(before, EventStep(Bdm.Unmount));
    if s.stage == Idle {
      WholePoll(s.(stage := Compare));
    } else {
      var t := Through(s);
      ThroughEnds(s);
      if s.stage == Clear {
        assert t == s.(unmount := false, stage := Idle);
      } else {
        PendingUnmountIsKept(s);
      }
      WholePoll(t.(stage := Compare));
    }
  }

  /** A run in which an unmount is forgotten. */
  lemma SomeUnmountIsForgotten() returns (run: seq<Step>)
    ensures Final(INIT, run).stage == Clear
    ensures var s := Next(Final(INIT, run), EventStep(Bdm.Unmount)); NextPoll(s).stable != s.generation
  {
    var first := NotedIsReached();
    var second := PassedIsReached();
    FinalConcat(INIT, first, second);
    OneStep(PASSED, PollStep);
    FinalConcat(INIT, first + second, [PollStep]);
    run := first + second + [PollStep];
    UnmountIsActedOnExactly(run);
  }
}
