/**
  The background-music ring of src/sound.c: `bgmIoThread` decodes into sixteen slots, `bgmThread` plays them,
  `bgmStop` asks both to end. Each step below is one access to shared state. Both threads have been started.
 */
module BgmRing {

  const SLOTS: nat := 16
  const SLOT_SIZE: nat := 4096

  /** `bgmThread`, by what it does next. */
  datatype Player =
    | Test      // while (!terminateFlag)
    | Sleep     // SleepThread()
    | Poll      // PollSema(outSema)
    | Play      // audsrv_wait_audio, audsrv_play_audio, advance rdPtr
    | Signal    // SignalSema(inSema)
    | Leave     // audsrv_stop_audio, reset both pointers
    | Ended

  /** `bgmIoThread`, by what it does next. */
  datatype Decoder =
    | Wait                             // WaitSema(inSema)
    | Claim(parts: nat)                // one more PollSema(inSema)
    | Decode(parts: nat, left: nat)    // ov_read into the first claimed slot
    | Advance(parts: nat)              // advance wrPtr
    | Publish(parts: nat, done: nat)   // SignalSema(outSema), parts times
    | Wake                             // WakeupThread(bgmThreadID)
    | Again                            // while (!terminateFlag && gEnableBGM)
    | Clear                            // bgmIoThreadRunning = 0
    | Flag                             // terminateFlag = 1
    | LastWake                         // WakeupThread(bgmThreadID)
    | Finished

  /** `bgmStop`, by what it does next. */
  datatype Stopper = Idle | Waking | AwaitIo | AwaitPlayer | Stopped

  /** A batch of slots that was claimed together: its first slot, their number, and what `ov_read` returned for it. */
  datatype Batch = Batch(first: nat, parts: nat, got: seq<int>)

  /** `published`, `played`, `got` for the batch under way, and `batches`, those decoded, record what happened. */
  datatype State = State(
    free: nat, out: nat, rd: nat, wr: nat, wakeups: nat, terminate: bool, enabled: bool,
    player: Player, decoder: Decoder, stopper: Stopper, published: nat, played: seq<nat>,
    got: seq<int>, batches: seq<Batch>)

  const INIT: State := State(SLOTS, 0, 0, 0, 0, false, true, Test, Wait, Idle, 0, [], [], [])

  /** Counted wake-ups; waking a thread that has ended does nothing. */
  function Woken(s: State): State {
    if s.player == Ended then s else s.(wakeups := s.wakeups + 1)
  }

  /** The slot of the `n`-th buffer. */
  function Slot(n: nat): (k: nat)
    ensures k < SLOTS
  {
    n % SLOTS
  }

  // ----- Steps -----

  datatype Step = PlayerStep | DecoderStep(ret: int) | StopperStep | Enable(on: bool)

  predicate PlayerReady(s: State) {
    s.player != Ended && (s.player == Sleep ==> s.wakeups > 0)
  }

  predicate DecoderReady(s: State) {
    s.decoder != Finished && (s.decoder == Wait ==> s.free > 0)
  }

  predicate StopperReady(s: State) {
    match s.stopper
    case Idle => true
    case Waking => true
    case AwaitIo => s.decoder.Flag? || s.decoder.LastWake? || s.decoder.Finished?
    case AwaitPlayer => s.player == Ended
    case Stopped => false
  }

  /** `ov_read` returns at most what it was asked for. */
  predicate Can(s: State, step: Step) {
    match step
    case PlayerStep => PlayerReady(s)
    case DecoderStep(ret) => DecoderReady(s) && (s.decoder.Decode? ==> ret <= s.decoder.left)
    case StopperStep => StopperReady(s)
    case Enable(_) => true
  }

  function PlayerDo(s: State): State
    requires PlayerReady(s)
  {
    match s.player
    case Test => if s.terminate then s.(player := Leave) else s.(player := Sleep)
    case Sleep => s.(wakeups := s.wakeups - 1, player := Poll)
    case Poll => if s.out > 0 then s.(out := s.out - 1, player := Play) else s.(player := Test)
    case Play => s.(played := s.played + [s.rd], rd := Slot(s.rd + 1), player := Signal)
    case Signal => s.(free := s.free + 1, player := Poll)
    case Leave => s.(rd := 0, wr := 0, player := Ended)
  }

  function DecoderDo(s: State, ret: int): State
    requires DecoderReady(s) && (s.decoder.Decode? ==> ret <= s.decoder.left)
  {
    match s.decoder
    case Wait => s.(free := s.free - 1, decoder := Claim(1))
    case Claim(parts) =>
      if s.wr + parts < SLOTS && s.free > 0 then s.(free := s.free - 1, decoder := Claim(parts + 1))
      else s.(decoder := Decode(parts, SLOT_SIZE), got := [])
    case Decode(parts, left) =>
      var s := s.(got := s.got + [ret]);
      if ret < 0 then s.(terminate := true, decoder := Advance(parts))
      else if left - ret > 0 then s.(decoder := Decode(parts, left - ret))
      else s.(decoder := Advance(parts))
    case Advance(parts) =>
      s.(wr := Slot(s.wr + parts), decoder := Publish(parts, 0), batches := s.batches + [Batch(s.wr, parts, s.got)])
    case Publish(parts, done) =>
      if done < parts then s.(out := s.out + 1, published := s.published + 1, decoder := Publish(parts, done + 1))
      else s.(decoder := Wake)
    case Wake => Woken(s.(decoder := Again))
    case Again => if !s.terminate && s.enabled then s.(decoder := Wait) else s.(decoder := Clear)
    case Clear => s.(decoder := Flag)
    case Flag => s.(terminate := true, decoder := LastWake)
    case LastWake => Woken(s.(decoder := Finished))
  }

  function StopperDo(s: State): State
    requires StopperReady(s)
  {
    match s.stopper
    case Idle => s.(terminate := true, stopper := Waking)
    case Waking => Woken(s.(stopper := AwaitIo))
    case AwaitIo => s.(stopper := AwaitPlayer)
    case AwaitPlayer => s.(stopper := Stopped)
  }

  function Do(s: State, step: Step): State
    requires Can(s, step)
  {
    match step
    case PlayerStep => PlayerDo(s)
    case DecoderStep(ret) => DecoderDo(s, ret)
    case StopperStep => StopperDo(s)
    case Enable(on) => s.(enabled := on)
  }

  /** The steps can be taken one after the other from `s` and end in `t`. */
  ghost predicate Run(s: State, steps: seq<Step>, t: State)
    decreases |steps|
  {
    if steps == [] then s == t
    else Can(s, steps[0]) && Run(Do(s, steps[0]), steps[1..], t)
  }

  // ----- What every step keeps -----

  function PlayerHolds(s: State): nat {
    if s.player == Play || s.player == Signal then 1 else 0
  }

  function DecoderHolds(s: State): nat {
    match s.decoder
    case Claim(parts) => parts
    case Decode(parts, _) => parts
    case Advance(parts) => parts
    case Publish(parts, done) => if done <= parts then parts - done else 0
    case _ => 0
  }

  /** Slots published and not played yet, counting the one being played. */
  function Pending(s: State): nat {
    s.out + if s.player == Play then 1 else 0
  }

  /** The batch lies in the ring without wrapping, and is counted correctly. */
  predicate BatchOk(s: State) {
    match s.decoder
    case Claim(parts) => 1 <= parts && s.wr + parts <= SLOTS
    case Decode(parts, left) => 1 <= parts && s.wr + parts <= SLOTS && 0 < left <= SLOT_SIZE
    case Advance(parts) => 1 <= parts && s.wr + parts <= SLOTS
    case Publish(parts, done) => done <= parts && 1 <= parts <= SLOTS
    case _ => true
  }

  /** How far `wrPtr` runs ahead of what was published. */
  function Ahead(s: State): nat {
    match s.decoder
    case Publish(parts, done) => if done <= parts then parts - done else 0
    case _ => 0
  }

  /** Sixteen tokens, wherever they are. */
  ghost predicate Tokens(s: State) {
    && s.free + s.out + PlayerHolds(s) + DecoderHolds(s) == SLOTS
    && s.wr < SLOTS && BatchOk(s)
    && s.published == |s.played| + Pending(s)
  }

  /** Buffers were played in ring order, and the pointers are where the counts say. */
  ghost predicate Pointers(s: State) {
    && (forall i :: 0 <= i < |s.played| ==> s.played[i] == Slot(i))
    && (s.player != Ended ==> s.rd == Slot(|s.played|) && s.wr == Slot(|s.played| + Pending(s) + Ahead(s)))
  }

  /** A player about to sleep is not left behind: there is nothing to play, or a wake-up is there or on its way. */
  ghost predicate Wakes(s: State) {
    && ((s.player == Test || s.player == Sleep) && s.out > 0 && s.wakeups == 0 ==>
      s.decoder.Publish? || s.decoder.Wake?)
    && (s.player == Sleep && s.terminate && s.wakeups == 0 ==>
          s.stopper == Waking || (s.decoder != Wait && s.decoder != Finished))
    && (s.player == Leave || s.player == Ended ==> s.terminate)
    && (s.decoder.LastWake? || s.decoder.Finished? ==> s.terminate)
    && (s.stopper != Idle ==> s.terminate)
  }

  ghost predicate Inv(s: State) {
    Tokens(s) && Pointers(s) && Wakes(s)
  }

  lemma SlotAdd(a: nat, b: nat)
    ensures Slot(Slot(a) + b) == Slot(a + b)
  {
  }

  lemma PlayerKeepsTokens(s: State)
    requires Tokens(s) && PlayerReady(s)
    ensures Tokens(PlayerDo(s))
  {
  }

  lemma PlayKeepsPointers(s: State)
    requires Tokens(s) && Pointers(s) && s.player == Play
    ensures Pointers(PlayerDo(s))
  {
    var t := PlayerDo(s);
    SlotAdd(|s.played|, 1);
    assert t.played[..|s.played|] == s.played;
    assert |t.played| + Pending(t) + Ahead(t) == |s.played| + Pending(s) + Ahead(s);
  }

  lemma PlayerKeepsPointers(s: State)
    requires Tokens(s) && Pointers(s) && PlayerReady(s)
    ensures Pointers(PlayerDo(s))
  {
    var t := PlayerDo(s);
    if s.player == Play {
      PlayKeepsPointers(s);
    } else if t.player != Ended {
      assert t.played == s.played && t.rd == s.rd && t.wr == s.wr;
      assert Pending(t) == Pending(s) && Ahead(t) == Ahead(s);
    }
  }

  lemma ClaimingKeepsRing(s: State, ret: int)
    requires Tokens(s) && Pointers(s) && Can(s, DecoderStep(ret)) && (s.decoder.Wait? || s.decoder.Claim?)
    ensures Tokens(DecoderDo(s, ret)) && Pointers(DecoderDo(s, ret))
  {
  }

  lemma DecodingKeepsRing(s: State, ret: int)
    requires Tokens(s) && Pointers(s) && Can(s, DecoderStep(ret)) && (s.decoder.Decode?)
    ensures Tokens(DecoderDo(s, ret)) && Pointers(DecoderDo(s, ret))
  {
  }

  lemma AdvancingKeepsRing(s: State, ret: int)
    requires Tokens(s) && Pointers(s) && Can(s, DecoderStep(ret)) && (s.decoder.Advance?)
    ensures Tokens(DecoderDo(s, ret)) && Pointers(DecoderDo(s, ret))
  {
    SlotAdd(|s.played| + Pending(s), s.decoder.parts);
  }

  lemma PublishingKeepsRing(s: State, ret: int)
    requires Tokens(s) && Pointers(s) && Can(s, DecoderStep(ret)) && (s.decoder.Publish?)
    ensures Tokens(DecoderDo(s, ret)) && Pointers(DecoderDo(s, ret))
  {
    var t := DecoderDo(s, ret);
    assert Pending(t) + Ahead(t) == Pending(s) + Ahead(s);
  }

  lemma EndingKeepsRing(s: State, ret: int)
    requires Tokens(s) && Pointers(s) && Can(s, DecoderStep(ret))
      && (s.decoder.Wake? || s.decoder.Again? || s.decoder.Clear? || s.decoder.Flag? || s.decoder.LastWake?)
    ensures Tokens(DecoderDo(s, ret)) && Pointers(DecoderDo(s, ret))
  {
  }

  lemma DecoderKeepsRing(s: State, ret: int)
    requires Tokens(s) && Pointers(s) && Can(s, DecoderStep(ret))
    ensures Tokens(DecoderDo(s, ret)) && Pointers(DecoderDo(s, ret))
  {
    if s.decoder.Wait? || s.decoder.Claim? {
      ClaimingKeepsRing(s, ret);
    } else if s.decoder.Decode? {
      DecodingKeepsRing(s, ret);
    } else if s.decoder.Advance? {
      AdvancingKeepsRing(s, ret);
    } else if s.decoder.Publish? {
      PublishingKeepsRing(s, ret);
    } else {
      EndingKeepsRing(s, ret);
    }
  }

  lemma PlayerKeepsWakes(s: State)
    requires Wakes(s) && PlayerReady(s)
    ensures Wakes(PlayerDo(s))
  {
  }

  lemma DecoderKeepsWakes(s: State, ret: int)
    requires Wakes(s) && Can(s, DecoderStep(ret))
    ensures Wakes(DecoderDo(s, ret))
  {
  }

  /** Every step of either thread, of `bgmStop` and of the settings keeps the invariant. */
  lemma StepKeepsInv(s: State, step: Step)
    requires Inv(s) && Can(s, step)
    ensures Inv(Do(s, step))
  {
    match step
    case PlayerStep =>
      PlayerKeepsTokens(s);
      PlayerKeepsPointers(s);
      PlayerKeepsWakes(s);
    case DecoderStep(ret) =>
      DecoderKeepsRing(s, ret);
      DecoderKeepsWakes(s, ret);
    case StopperStep =>
    case Enable(_) =>
  }

  lemma {:induction false} RunKeepsInv(s: State, steps: seq<Step>, t: State)
    requires Inv(s) && Run(s, steps, t)
    ensures Inv(t)
    decreases |steps|
  {
    if steps != [] {
      StepKeepsInv(s, steps[0]);
      RunKeepsInv(Do(s, steps[0]), steps[1..], t);
    }
  }

  /**
    In every state of every run: the free, published and held tokens are sixteen, so neither semaphore ever
    exceeds its maximum; every published buffer is played at most once, and the buffers played so far are the
    first ones published, each in its own slot of the ring.
   */
  lemma {:induction false} EveryRunIsSafe(steps: seq<Step>, t: State)
    requires Run(INIT, steps, t)
    ensures t.free + t.out + PlayerHolds(t) + DecoderHolds(t) == SLOTS
    ensures t.published == |t.played| + t.out + if t.player == Play then 1 else 0
    ensures forall i :: 0 <= i < |t.played| ==> t.played[i] == i % SLOTS
    ensures Inv(t)
  {
    RunKeepsInv(INIT, steps, t);
  }

  /** How many slots back from `wrPtr` a slot lies, from 1 to 16. */
  function Behind(wr: nat, slot: nat): int {
    var d := (wr - slot) % SLOTS;
    if d == 0 then SLOTS else d
  }

  /** The slots the decoder owns: claimed and not published yet. */
  predicate Claimed(s: State, slot: nat) {
    match s.decoder
    case Claim(parts) => s.wr <= slot < s.wr + parts
    case Decode(parts, _) => s.wr <= slot < s.wr + parts
    case Advance(parts) => s.wr <= slot < s.wr + parts
    case Publish(parts, done) => done <= parts && Behind(s.wr, slot) <= parts - done
    case _ => false
  }

  lemma DistanceBehind(a: nat, n: nat)
    requires 1 <= n <= SLOTS
    ensures Behind(Slot(a + n), Slot(a)) == n
  {
  }

  lemma NotAhead(a: nat, n: nat, parts: nat)
    requires 1 <= n && n + parts <= SLOTS && Slot(a + n) + parts <= SLOTS
    ensures !(Slot(a + n) <= Slot(a) < Slot(a + n) + parts)
  {
    DistanceBehind(a, n);
  }

  /** The slot being played is never one the decoder may write. */
  lemma PlayedSlotIsNotClaimed(s: State)
    requires Inv(s) && s.player == Play
    ensures !Claimed(s, s.rd)
  {
    var n := Pending(s);
    if s.decoder.Publish? {
      DistanceBehind(|s.played|, n + Ahead(s));
    } else {
      NotAhead(|s.played|, n, DecoderHolds(s));
    }
  }

  // ----- What is decoded -----

  /** The bytes read. */
  function Total(got: seq<int>): int {
    if got == [] then 0 else Total(got[..|got| - 1]) + got[|got| - 1]
  }

  predicate NoError(got: seq<int>) {
    forall i :: 0 <= i < |got| ==> got[i] >= 0
  }

  /** The reads filled a slot exactly, or the last one failed. */
  predicate FilledOrFailed(got: seq<int>) {
    got != [] && NoError(got[..|got| - 1]) && (got[|got| - 1] < 0 || Total(got) == 4096)
  }

  function PartsOf(batches: seq<Batch>): nat {
    if batches == [] then 0 else PartsOf(batches[..|batches| - 1]) + batches[|batches| - 1].parts
  }

  /** Each batch starts behind the ones before it. */
  predicate Follow(batches: seq<Batch>) {
    forall i :: 0 <= i < |batches| ==> batches[i].first == PartsOf(batches[..i]) % 16
  }

  /** The reads of the batch under way. */
  predicate ReadingOk(s: State) {
    && (s.decoder.Decode? ==> NoError(s.got) && Total(s.got) + s.decoder.left == 4096 && s.decoder.left > 0)
    && (s.decoder.Advance? ==> DecodedOk(s.got, s.terminate))
  }

  /** A slot was filled, or reading failed and the threads were told to end. */
  predicate DecodedOk(got: seq<int>, terminate: bool) {
    FilledOrFailed(got) && (got[|got| - 1] < 0 ==> terminate)
  }

  predicate AllDecoded(batches: seq<Batch>, terminate: bool) {
    forall i :: 0 <= i < |batches| ==> DecodedOk(batches[i].got, terminate)
  }

  /** While the player runs, the batches have gone around the ring up to `wrPtr`. */
  predicate RingOk(s: State) {
    s.player != Ended ==> Follow(s.batches) && s.wr == PartsOf(s.batches) % 16
  }

  predicate WellDecoded(s: State) {
    ReadingOk(s) && AllDecoded(s.batches, s.terminate) && RingOk(s)
  }

  lemma TotalStep(got: seq<int>, ret: int)
    ensures Total(got + [ret]) == Total(got) + ret
  {
    assert (got + [ret])[..|got|] == got;
  }

  lemma PartsStep(batches: seq<Batch>, b: Batch)
    requires Follow(batches) && b.first == PartsOf(batches) % 16
    ensures Follow(batches + [b]) && PartsOf(batches + [b]) == PartsOf(batches) + b.parts
  {
    var more := batches + [b];
    assert more[..|batches|] == batches;
    forall i | 0 <= i < |more| ensures more[i].first == PartsOf(more[..i]) % 16 {
      if i < |batches| {
        assert more[..i] == batches[..i];
      }
    }
  }

  lemma {:induction false} AdvanceIsDecoded(s: State, ret: int)
    requires ReadingOk(s) && AllDecoded(s.batches, s.terminate) && s.decoder.Advance?
    ensures ReadingOk(DecoderDo(s, ret)) && AllDecoded(DecoderDo(s, ret).batches, DecoderDo(s, ret).terminate)
  {
  }

  lemma {:induction false} AdvanceKeepsRing(s: State, ret: int)
    requires RingOk(s) && s.decoder.Advance?
    ensures RingOk(DecoderDo(s, ret))
  {
    if s.player != Ended {
      PartsStep(s.batches, Batch(s.wr, s.decoder.parts, s.got));
      SlotAdd(PartsOf(s.batches), s.decoder.parts);
    }
  }

  lemma {:induction false} ReadIsDecoded(s: State, ret: int)
    requires ReadingOk(s) && s.decoder.Decode? && ret <= s.decoder.left
    ensures ReadingOk(DecoderDo(s, ret))
  {
    TotalStep(s.got, ret);
    assert (s.got + [ret])[..|s.got|] == s.got;
  }

  /** From one state to the next batches and ring pointer stay as they are, unless the player ends. */
  predicate LeftAlone(s: State, t: State) {
    && t.batches == s.batches && (s.terminate ==> t.terminate)
    && (t.player == Ended || (t.wr == s.wr && s.player != Ended))
    && (t.decoder == s.decoder
        || (!t.decoder.Advance? && (t.decoder.Decode? ==> t.decoder.left == 4096 && t.got == [])))
    && (t.decoder == s.decoder ==> t.got == s.got)
  }

  lemma OtherDecoderStep(s: State, ret: int)
    requires Can(s, DecoderStep(ret)) && !s.decoder.Advance? && !s.decoder.Decode?
    ensures LeftAlone(s, DecoderDo(s, ret))
  {
  }

  lemma OtherStep(s: State, step: Step)
    requires Can(s, step) && !step.DecoderStep?
    ensures LeftAlone(s, Do(s, step)) && Do(s, step).decoder == s.decoder && Do(s, step).published == s.published
  {
  }

  lemma {:induction false} StepIsDecoded(s: State, step: Step)
    requires WellDecoded(s) && Can(s, step)
    ensures WellDecoded(Do(s, step))
  {
    if step.DecoderStep? && s.decoder.Advance? {
      AdvanceIsDecoded(s, step.ret);
      AdvanceKeepsRing(s, step.ret);
    } else if step.DecoderStep? && s.decoder.Decode? {
      ReadIsDecoded(s, step.ret);
    } else if step.DecoderStep? {
      OtherDecoderStep(s, step.ret);
    } else {
      OtherStep(s, step);
    }
  }

  /**
    In every run the first slot of every batch is decoded in full, 4096 bytes in as many reads as it takes, unless
    the last read failed, and then both threads are told to end; and while the player runs, batches follow each other
    around the ring.
   */
  lemma {:induction false} EveryBatchIsDecoded(s: State, steps: seq<Step>, t: State)
    requires WellDecoded(s) && Run(s, steps, t)
    ensures WellDecoded(t)
    decreases |steps|
  {
    if steps != [] {
      StepIsDecoded(s, steps[0]);
      EveryBatchIsDecoded(Do(s, steps[0]), steps[1..], t);
    }
  }

  /** Slots are published only from decoded batches, all of a batch before the next one. */
  lemma {:induction false} EveryRunIsDecoded(steps: seq<Step>, t: State)
    requires Run(INIT, steps, t)
    ensures forall i :: 0 <= i < |t.batches| ==>
      var got := t.batches[i].got;
      got != [] && (got[|got| - 1] < 0 || Total(got) == 4096) && (got[|got| - 1] < 0 ==> t.terminate)
    ensures t.player != Ended ==> Follow(t.batches)
    ensures t.published + (if t.decoder.Publish? then t.decoder.parts - t.decoder.done else 0) == PartsOf(t.batches)
  {
    EveryBatchIsDecoded(INIT, steps, t);
    PublishedIsDecoded(INIT, steps, t);
  }

  predicate Accounted(s: State) {
    && BatchOk(s)
    && s.published + (if s.decoder.Publish? then s.decoder.parts - s.decoder.done else 0) == PartsOf(s.batches)
  }

  lemma {:induction false} StepIsAccounted(s: State, step: Step)
    requires Accounted(s) && Can(s, step) && BatchOk(Do(s, step))
    ensures Accounted(Do(s, step))
  {
    if step.DecoderStep? {
      DecoderIsAccounted(s, step.ret);
    } else {
      OtherStep(s, step);
    }
  }

  lemma {:induction false} DecoderIsAccounted(s: State, ret: int)
    requires Accounted(s) && Can(s, DecoderStep(ret)) && BatchOk(DecoderDo(s, ret))
    ensures Accounted(DecoderDo(s, ret))
  {
    if s.decoder.Advance? {
      var b := Batch(s.wr, s.decoder.parts, s.got);
      assert (s.batches + [b])[..|s.batches|] == s.batches;
    } else {
      assert DecoderDo(s, ret).batches == s.batches;
    }
  }

  lemma {:induction false} PublishedIsDecoded(s: State, steps: seq<Step>, t: State)
    requires Inv(s) && Accounted(s) && Run(s, steps, t)
    ensures Accounted(t)
    decreases |steps|
  {
    if steps != [] {
      StepKeepsInv(s, steps[0]);
      StepIsAccounted(s, steps[0]);
      PublishedIsDecoded(Do(s, steps[0]), steps[1..], t);
    }
  }

  // ----- Deadlock -----

  /** No thread can move, and nobody is about to wake the player. */
  predicate Stuck(s: State) {
    !PlayerReady(s) && !DecoderReady(s) && s.stopper != Waking
  }

  /** The player has gone and the decoder waits for a slot that nobody will free. */
  predicate Wedged(s: State) {
    (s.player == Leave || s.player == Ended) && s.decoder == Wait && s.free == 0
  }

  /** The threads stop moving exactly when both have ended, or when the decoder is wedged. */
  lemma StuckExactly(s: State)
    requires Inv(s)
    ensures Stuck(s) <==>
            (s.player == Ended && s.stopper != Waking && (s.decoder == Finished || Wedged(s)))
  {
  }

  /** Once wedged, always wedged: `bgmStop` would wait for ever. */
  lemma {:induction false} WedgedForever(s: State, steps: seq<Step>, t: State)
    requires Wedged(s) && Run(s, steps, t)
    ensures Wedged(t)
    ensures s.stopper != AwaitPlayer && s.stopper != Stopped ==> t.stopper != AwaitPlayer && t.stopper != Stopped
    decreases |steps|
  {
    if steps != [] {
      WedgedForever(Do(s, steps[0]), steps[1..], t);
    }
  }

  /** Past the player's last test, the decoder is safe unless it was starved at that moment. */
  ghost predicate Released(s: State) {
    s.terminate && (s.player == Leave || s.player == Ended) && (s.decoder == Wait ==> s.free > 0)
  }

  lemma {:induction false} ReleasedForever(s: State, steps: seq<Step>, t: State)
    requires Released(s) && Run(s, steps, t)
    ensures Released(t)
    decreases |steps|
  {
    if steps != [] {
      ReleasedForever(Do(s, steps[0]), steps[1..], t);
    }
  }

  /**
    Whether a run can wedge is decided when the player leaves its loop: it wedges if and only if at that
    moment the decoder is waiting and no slot is free.
   */
  lemma LeavingDecides(s: State, steps: seq<Step>, t: State)
    requires Inv(s) && s.player == Test && s.terminate && Run(PlayerDo(s), steps, t)
    ensures Wedged(t) <==> s.decoder == Wait && s.free == 0
  {
    var l := PlayerDo(s);
    if s.decoder == Wait && s.free == 0 {
      WedgedForever(l, steps, t);
    } else {
      ReleasedForever(l, steps, t);
    }
  }

  // ----- With and without thread priorities -----

  /** The player's priority is above the decoder's, which runs only while the player sleeps, waits for audio or has
      ended. */
  predicate Yields(s: State, step: Step) {
    step.DecoderStep? ==> !PlayerReady(s) || s.player == Play || s.player == Leave
  }

  ghost predicate PriorityRun(s: State, steps: seq<Step>, t: State)
    decreases |steps|
  {
    if steps == [] then s == t
    else Can(s, steps[0]) && Yields(s, steps[0]) && PriorityRun(Do(s, steps[0]), steps[1..], t)
  }

  /** A player that is about to test the flag has just found nothing to play. */
  ghost predicate Calm(s: State) {
    (s.player == Test ==> s.out == 0) && (s.player == Leave || s.player == Ended ==> Released(s))
  }

  lemma {:induction false} PriorityKeepsCalm(s: State, step: Step)
    requires Inv(s) && Calm(s) && Can(s, step) && Yields(s, step)
    ensures Calm(Do(s, step))
  {
    if s.player == Leave || s.player == Ended {
      assert Run(s, [step], Do(s, step)) by {
        assert [step][1..] == [];
      }
      ReleasedForever(s, [step], Do(s, step));
    }
  }

  lemma {:induction false} PriorityRunIsCalm(s: State, steps: seq<Step>, t: State)
    requires Inv(s) && Calm(s) && PriorityRun(s, steps, t)
    ensures Inv(t) && Calm(t)
    decreases |steps|
  {
    if steps != [] {
      StepKeepsInv(s, steps[0]);
      PriorityKeepsCalm(s, steps[0]);
      PriorityRunIsCalm(Do(s, steps[0]), steps[1..], t);
    }
  }

  /** With the priorities the threads are created with, no run stops before both threads have ended. */
  lemma {:induction false} PriorityRunsDoNotDeadlock(steps: seq<Step>, t: State)
    requires PriorityRun(INIT, steps, t)
    ensures !Wedged(t)
    ensures Stuck(t) ==> t.player == Ended && t.decoder == Finished
  {
    PriorityRunIsCalm(INIT, steps, t);
    StuckExactly(t);
  }

  // ----- Shutdown -----

  /** What `bgmStop` still waits for: its own steps, the player's and, weighted for the slots it may publish, the
      decoder's. */
  function Remaining(s: State): nat {
    StopperLeft(s) + PlayerLeft(s) + 4 * DecoderLeft(s)
  }

  function StopperLeft(s: State): nat {
    match s.stopper
    case Idle => 4 case Waking => 3 case AwaitIo => 2 case AwaitPlayer => 1 case Stopped => 0
  }

  function PlayerLeft(s: State): nat {
    match s.player
    case Ended => 0
    case Leave => 1
    case Test => 2
    case Poll => 3 + 3 * s.out
    case Sleep => 4 + 3 * s.out
    case Signal => 4 + 3 * s.out
    case Play => 5 + 3 * s.out
  }

  function DecoderLeft(s: State): nat {
    match s.decoder
    case Finished => 0
    case LastWake => 1
    case Flag => 2
    case Clear => 3
    case Again => 4
    case Wake => 5
    case Publish(parts, done) => 6 + if done <= parts then parts - done else 0
    case Advance(parts) => 7 + parts
    case Decode(parts, left) => 8 + parts + left
    case Claim(parts) => 9 + 2 * SLOTS + SLOT_SIZE - if parts <= SLOTS then parts else SLOTS
    case Wait => 9 + 2 * SLOTS + SLOT_SIZE
  }

  /** The next step towards the end: the stopper's own, else the player's, else the decoder's, reading all it asks
      for. */
  function Onward(s: State): Step {
    if s.stopper == Idle || s.stopper == Waking then StopperStep
    else if PlayerReady(s) then PlayerStep
    else if s.decoder != Finished then DecoderStep(if s.decoder.Decode? then s.decoder.left else 0)
    else StopperStep
  }

  lemma StopperHelps(s: State)
    requires StopperReady(s)
    ensures Remaining(StopperDo(s)) < Remaining(s)
  {
    var t := StopperDo(s);
    assert t.player == s.player && t.out == s.out && t.decoder == s.decoder;
    assert PlayerLeft(t) == PlayerLeft(s) && DecoderLeft(t) == DecoderLeft(s);
    assert StopperLeft(t) < StopperLeft(s);
  }

  lemma PlayerHelps(s: State)
    requires PlayerReady(s) && s.terminate
    ensures Remaining(PlayerDo(s)) < Remaining(s)
  {
    var t := PlayerDo(s);
    assert t.decoder == s.decoder && t.stopper == s.stopper;
    assert DecoderLeft(t) == DecoderLeft(s) && StopperLeft(t) == StopperLeft(s);
    assert PlayerLeft(t) < PlayerLeft(s);
  }

  lemma DecoderHelps(s: State, ret: int)
    requires DecoderReady(s) && s.terminate && BatchOk(s) && (s.decoder.Decode? ==> ret <= s.decoder.left && ret != 0)
    ensures Remaining(DecoderDo(s, ret)) < Remaining(s)
  {
    var t := DecoderDo(s, ret);
    assert t.player == s.player && t.stopper == s.stopper && t.out <= s.out + 1;
    assert StopperLeft(t) == StopperLeft(s) && PlayerLeft(t) <= PlayerLeft(s) + 3;
    assert DecoderLeft(t) < DecoderLeft(s);
  }

  /** While the player cannot move, the decoder can, until both have ended. */
  lemma SomeoneMoves(s: State)
    requires Wakes(s) && Calm(s) && s.terminate && s.stopper != Waking && !PlayerReady(s)
    ensures s.decoder == Finished ==> s.player == Ended
    ensures s.decoder != Finished ==> DecoderReady(s)
  {
  }

  lemma {:induction false} OnwardHelps(s: State)
    requires BatchOk(s) && Wakes(s) && Calm(s) && s.stopper != Stopped
    ensures Can(s, Onward(s)) && Yields(s, Onward(s)) && Remaining(Do(s, Onward(s))) < Remaining(s)
  {
    var a := Onward(s);
    if s.stopper == Idle || s.stopper == Waking {
      StopperHelps(s);
    } else if PlayerReady(s) {
      PlayerHelps(s);
    } else {
      SomeoneMoves(s);
      if s.decoder != Finished {
        DecoderHelps(s, a.ret);
      } else {
        StopperHelps(s);
      }
    }
  }

  /** With the thread priorities, from every state that keeps them in order `bgmStop` can be brought to return. */
  lemma {:induction false} StopReturns(s: State) returns (steps: seq<Step>, t: State)
    requires Inv(s) && Calm(s)
    ensures PriorityRun(s, steps, t) && t.stopper == Stopped
    decreases Remaining(s)
  {
    steps, t := [], s;
    if s.stopper != Stopped {
      OnwardHelps(s);
      var a := Onward(s);
      StepKeepsInv(s, a);
      PriorityKeepsCalm(s, a);
      var rest;
      rest, t := StopReturns(Do(s, a));
      steps := [a] + rest;
      assert steps[1..] == rest;
    }
  }

  /** From every state that a run with priorities reaches, some further run with priorities lets `bgmStop` return. */
  lemma {:induction false} EveryPriorityRunCanStop(before: seq<Step>, s: State)
    requires PriorityRun(INIT, before, s)
    ensures exists steps, t :: PriorityRun(s, steps, t) && t.stopper == Stopped
  {
    PriorityRunIsCalm(INIT, before, s);
    var steps, t := StopReturns(s);
  }

  /** The run's steps can be taken, and no read finds the end of the stream at once. */
  ghost predicate ReadingRun(s: State, steps: seq<Step>, t: State)
    decreases |steps|
  {
    if steps == [] then s == t
    else
      && Can(s, steps[0]) && (s.decoder.Decode? && steps[0].DecoderStep? ==> steps[0].ret != 0)
      && ReadingRun(Do(s, steps[0]), steps[1..], t)
  }

  /** The steps of the two threads and of `bgmStop`. */
  function Moves(steps: seq<Step>): nat {
    if steps == [] then 0 else Moves(steps[1..]) + if steps[0].Enable? then 0 else 1
  }

  lemma {:induction false} StepHelps(s: State, a: Step)
    requires BatchOk(s) && s.terminate && Can(s, a) && (s.decoder.Decode? && a.DecoderStep? ==> a.ret != 0)
    ensures Do(s, a).terminate && Remaining(Do(s, a)) + (if a.Enable? then 0 else 1) <= Remaining(s)
  {
    match a {
      case PlayerStep => PlayerHelps(s);
      case DecoderStep(ret) => DecoderHelps(s, ret);
      case StopperStep => StopperHelps(s);
      case Enable(on) =>
        var t := Do(s, a);
        assert StopperLeft(t) == StopperLeft(s) && PlayerLeft(t) == PlayerLeft(s) && DecoderLeft(t) == DecoderLeft(s);
    }
  }

  /** Once the flag is set, the threads and `bgmStop` make a bounded number of steps together, however they
      interleave. */
  lemma {:induction false} ShutdownIsBounded(s: State, steps: seq<Step>, t: State)
    requires Inv(s) && s.terminate && ReadingRun(s, steps, t)
    ensures Moves(steps) + Remaining(t) <= Remaining(s)
    decreases |steps|
  {
    if steps != [] {
      StepHelps(s, steps[0]);
      StepKeepsInv(s, steps[0]);
      ShutdownIsBounded(Do(s, steps[0]), steps[1..], t);
    }
  }

  /**
    With priorities, a run that can go on only by changing the settings has seen `bgmStop` return. Since the number of
    other steps is bounded once the flag is set, every run that goes on as long as it can ends this way.
   */
  lemma {:induction false} MaximalRunHasStopped(before: seq<Step>, s: State)
    requires PriorityRun(INIT, before, s)
    requires forall a :: Can(s, a) && Yields(s, a) ==> a.Enable?
    ensures s.stopper == Stopped && s.player == Ended && s.decoder == Finished
  {
    PriorityRunIsCalm(INIT, before, s);
    if s.stopper != Stopped {
      OnwardHelps(s);
    } else {
      assert Can(s, PlayerStep) ==> Yields(s, PlayerStep);
      SomeoneMoves(s);
      assert Can(s, DecoderStep(0)) ==> Yields(s, DecoderStep(0));
    }
  }

  // ----- The music goes on -----

  /** A batch grows until it reaches the end of the ring or no slot is free. */
  lemma ClaimStopsExactly(s: State, ret: int)
    requires Inv(s) && s.decoder.Claim?
    ensures DecoderDo(s, ret).decoder.Decode? <==> s.wr + s.decoder.parts == 16 || s.free == 0
    ensures !DecoderDo(s, ret).decoder.Decode? ==>
      DecoderDo(s, ret).free == s.free - 1 && DecoderHolds(DecoderDo(s, ret)) == DecoderHolds(s) + 1
  {
  }

  /** The decoder makes another round exactly when it was not told to end and music is still enabled. */
  lemma DecoderGoesOnExactly(s: State, ret: int)
    requires s.decoder.Again?
    ensures DecoderDo(s, ret).decoder.Wait? <==> !s.terminate && s.enabled
    ensures DecoderDo(s, ret).decoder.Wait? || DecoderDo(s, ret).decoder.Clear?
  {
  }

  /** Music is enabled, nobody asked the threads to end, and the decoder is in its loop. */
  predicate Playing(s: State) {
    && !s.terminate && s.enabled && s.player != Play
    && !s.decoder.Clear? && !s.decoder.Flag? && !s.decoder.LastWake? && !s.decoder.Finished?
  }

  /** A buffer is there, and the player is awake or will be. */
  predicate Supplied(s: State) {
    s.out > 0 && (s.player == Poll || s.player == Signal || s.wakeups > 0)
  }

  /** How far the decoder is from waking the player for a buffer. */
  function Distance(s: State): nat {
    if Supplied(s) then 0
    else
      match s.decoder
      case Wake => if s.out > 0 then 1 else 5000
      case Publish(parts, done) => if done < parts then 2 + parts - done else if s.out > 0 then 2 else 5001
      case Again => 4999
      case _ => DecoderLeft(s)
  }

  /** How far the player is from its sleep, or from the next buffer. */
  function ToSleep(s: State): nat {
    4 * s.wakeups + match s.player case Sleep => 0 case Test => 1 case Poll => 2 case _ => 3
  }

  /** The player moves while it can, else the decoder, reading all it asks for. */
  function Forth(s: State): Step {
    if PlayerReady(s) then PlayerStep else DecoderStep(if s.decoder.Decode? then s.decoder.left else 0)
  }

  lemma {:induction false} PlayerComesNearer(s: State)
    requires Inv(s) && Playing(s) && PlayerReady(s)
    ensures var t := PlayerDo(s);
      !t.terminate && t.enabled && t.decoder == s.decoder && t.played == s.played
    ensures PlayerDo(s).player != Play ==>
      Distance(PlayerDo(s)) <= Distance(s) && ToSleep(PlayerDo(s)) < ToSleep(s)
  {
  }

  lemma {:induction false} DecoderComesNearer(s: State, ret: int)
    requires Inv(s) && Playing(s) && !PlayerReady(s) && (s.decoder.Decode? ==> ret == s.decoder.left)
    ensures DecoderReady(s)
    ensures var t := DecoderDo(s, ret);
      Playing(t) && t.played == s.played && Distance(t) < Distance(s)
  {
  }

  lemma {:induction false} SomeBufferIsPlayed(s: State) returns (steps: seq<Step>, t: State)
    requires Inv(s) && (Playing(s) || s.player == Play)
    ensures PriorityRun(s, steps, t) && |t.played| == |s.played| + 1
    decreases s.player != Play, Distance(s), ToSleep(s)
  {
    var a, rest := Forth(s), [];
    StepKeepsInv(s, a);
    if s.player == Play {
      t := Do(s, a);
    } else {
      if PlayerReady(s) {
        PlayerComesNearer(s);
      } else {
        DecoderComesNearer(s, a.ret);
      }
      rest, t := SomeBufferIsPlayed(Do(s, a));
    }
    steps := [a] + rest;
    assert steps[1..] == rest;
  }

  /**
    As long as music is enabled, nobody asked the threads to end and the decoder is in its loop, some run with
    priorities plays another buffer.
   */
  lemma {:induction false} MusicGoesOn(before: seq<Step>, s: State)
    requires PriorityRun(INIT, before, s)
    requires !s.terminate && s.enabled
    requires !s.decoder.Clear? && !s.decoder.Flag? && !s.decoder.LastWake? && !s.decoder.Finished?
    ensures exists steps, t :: PriorityRun(s, steps, t) && |t.played| == |s.played| + 1
  {
    PriorityRunIsCalm(INIT, before, s);
    var steps, t := SomeBufferIsPlayed(s);
  }

  // ----- A run that deadlocks without priorities -----

  lemma {:induction false} RunConcat(s: State, a: seq<Step>, t: State, b: seq<Step>, u: State)
    requires Run(s, a, t) && Run(t, b, u)
    ensures Run(s, a + b, u)
    decreases |a|
  {
    if a == [] {
      assert a + b == b;
    } else {
      assert (a + b)[0] == a[0] && (a + b)[1..] == a[1..] + b;
      RunConcat(Do(s, a[0]), a[1..], t, b, u);
    }
  }

  lemma {:induction false} RunStep(s: State, step: Step, steps: seq<Step>, t: State)
    requires Can(s, step) && Run(Do(s, step), steps, t)
    ensures Run(s, [step] + steps, t)
  {
    assert ([step] + steps)[1..] == steps;
  }

  lemma {:induction false} ClaimAll(parts: nat) returns (steps: seq<Step>)
    requires 1 <= parts <= SLOTS
    ensures Run(INIT.(free := SLOTS - parts, decoder := Claim(parts)), steps, INIT.(free := 0, decoder := Claim(SLOTS)))
    decreases SLOTS - parts
  {
    steps := [];
    if parts < SLOTS {
      steps := ClaimAll(parts + 1);
      RunStep(INIT.(free := SLOTS - parts, decoder := Claim(parts)), DecoderStep(0), steps,
        INIT.(free := 0, decoder := Claim(SLOTS)));
      steps := [DecoderStep(0)] + steps;
    }
  }

  function Published(done: nat): State {
    INIT.(free := 0, out := done, published := done, decoder := Publish(SLOTS, done),
          got := [SLOT_SIZE], batches := [Batch(0, SLOTS, [SLOT_SIZE])])
  }

  lemma {:induction false} PublishAll(done: nat) returns (steps: seq<Step>)
    requires done <= SLOTS
    ensures Run(Published(done), steps, Published(SLOTS))
    decreases SLOTS - done
  {
    steps := [];
    if done < SLOTS {
      steps := PublishAll(done + 1);
      RunStep(Published(done), DecoderStep(0), steps, Published(SLOTS));
      steps := [DecoderStep(0)] + steps;
    }
  }

  /** All slots published, the decoder waiting, both wake-ups unused, the player gone. */
  const WEDGED: State :=
    Published(SLOTS).(decoder := Wait, wakeups := 2, terminate := true, stopper := AwaitIo, player := Ended)

  lemma {:induction false} StopWhileFull() returns (steps: seq<Step>)
    ensures Run(Published(SLOTS).(decoder := Wait, wakeups := 1), steps, WEDGED)
  {
    var s0 := Published(SLOTS).(decoder := Wait, wakeups := 1);
    var s1 := Do(s0, StopperStep);
    var s2 := Do(s1, StopperStep);
    var s3 := Do(s2, PlayerStep);
    steps := [];
    RunStep(s3, PlayerStep, steps, WEDGED);
    steps := [PlayerStep] + steps;
    RunStep(s2, PlayerStep, steps, WEDGED);
    steps := [PlayerStep] + steps;
    RunStep(s1, StopperStep, steps, WEDGED);
    steps := [StopperStep] + steps;
    RunStep(s0, StopperStep, steps, WEDGED);
    steps := [StopperStep] + steps;
  }

  lemma {:induction false} PublishThenStop() returns (steps: seq<Step>)
    ensures Run(Published(0), steps, WEDGED)
  {
    var full, d := Published(SLOTS), DecoderStep(0);
    steps := StopWhileFull();
    RunStep(full.(decoder := Again, wakeups := 1), d, steps, WEDGED);
    steps := [d] + steps;
    RunStep(full.(decoder := Wake), d, steps, WEDGED);
    steps := [d] + steps;
    RunStep(full, d, steps, WEDGED);
    steps := [d] + steps;
    var publishes := PublishAll(0);
    RunConcat(Published(0), publishes, full, steps, WEDGED);
    steps := publishes + steps;
  }

  lemma {:induction false} DecodeThenStop() returns (steps: seq<Step>)
    ensures Run(INIT.(free := 0, decoder := Claim(SLOTS)), steps, WEDGED)
  {
    var claimed, d := INIT.(free := 0, decoder := Claim(SLOTS)), DecoderStep(0);
    steps := PublishThenStop();
    assert Slot(SLOTS) == 0;
    assert [] + [SLOT_SIZE] == [SLOT_SIZE];
    assert [] + [Batch(0, SLOTS, [SLOT_SIZE])] == [Batch(0, SLOTS, [SLOT_SIZE])];
    RunStep(claimed.(decoder := Advance(SLOTS), got := [SLOT_SIZE]), d, steps, WEDGED);
    steps := [d] + steps;
    RunStep(claimed.(decoder := Decode(SLOTS, SLOT_SIZE)), DecoderStep(SLOT_SIZE), steps, WEDGED);
    steps := [DecoderStep(SLOT_SIZE)] + steps;
    RunStep(claimed, d, steps, WEDGED);
    steps := [d] + steps;
  }

  /**
    Without priorities there is a run that deadlocks: before the player's first test the decoder fills all
    sixteen slots and waits for a free one, `bgmStop` sets the flag, and the player leaves without playing.
   */
  lemma {:induction false} SomeRunDeadlocks() returns (steps: seq<Step>)
    ensures Run(INIT, steps, WEDGED)
    ensures Wedged(WEDGED) && Stuck(WEDGED) && WEDGED.decoder != Finished
  {
    var claimed := INIT.(free := 0, decoder := Claim(SLOTS));
    var first := INIT.(free := SLOTS - 1, decoder := Claim(1));
    var claims := ClaimAll(1);
    var rest := DecodeThenStop();
    RunConcat(first, claims, claimed, rest, WEDGED);
    RunStep(INIT, DecoderStep(0), claims + rest, WEDGED);
    steps := [DecoderStep(0)] + (claims + rest);
  }
}
