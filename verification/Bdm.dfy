/**
  Block devices of src/bdmsupport.c: mount events are debounced by generation counters, and the first read of a
  device's game list, or a retry after a failed one, is deferred.
 */
module Bdm {
  const EVENT_QUIET_FRAMES: int := 180
  const FIRST_SCAN_DELAY_FRAMES: int := 300
  const RETRY_SCAN_FRAMES: int := 180
  const MAX_RETRY_SCAN_FRAMES: int := 900

  datatype Event = Unmount | Mount | Other

  /** `ulSize` is -2 while the list has not been read; `prefix` says whether the device path is set. */
  datatype Device = Device(force: bool, tick: int, ulSize: int, scanReady: int, retry: nat, deferred: bool,
      visible: bool, prefix: bool)

  datatype Core = Core(generation: nat, stable: nat, pending: nat, since: int, unmount: bool, devices: seq<Device>)

  /** What a poll finds outside: BDM switched off, this device type supported, the device opens, its driver is known. */
  datatype World = World(off: bool, supported: bool, opens: bool, known: bool)

  function Initial(count: nat): Core {
    Core(0, 0, 0, 0, false, seq(count, _ => Device(false, 0, -2, 0, 0, false, false, false)))
  }

  function OnEvent(c: Core, e: Event): Core {
    c.(generation := c.generation + 1,
       unmount := match e case Unmount => true case Mount => false case Other => c.unmount)
  }

  // ---- a poll ----

  function Refreshed(d: Device): Device {
    if d.force then d.(force := false, tick := -1, ulSize := -2, scanReady := 0, retry := 0, deferred := false) else d
  }

  predicate Debouncing(c: Core, frame: int) {
    && c.stable != c.generation && !c.unmount
    && (c.pending != c.generation || frame - c.since < EVENT_QUIET_FRAMES)
  }

  /** The generation counters after a poll. */
  function Debounced(c: Core, frame: int): Core {
    if c.stable == c.generation then c
    else
      var c := if c.pending != c.generation then c.(pending := c.generation, since := frame) else c;
      if !c.unmount && frame - c.since < EVENT_QUIET_FRAMES then c else c.(stable := c.generation, unmount := false)
  }

  function Defer(d: Device, frame: int, frames: int): Device {
    d.(deferred := true, scanReady := frame + if frames > MAX_RETRY_SCAN_FRAMES then MAX_RETRY_SCAN_FRAMES else frames)
  }

  /** `bdmUpdateDeviceData` */
  function Probed(d: Device, frame: int, w: World): (Device, int) {
    if w.opens && (!d.visible || !d.prefix) then
      if !w.known then (Defer(d, frame, RETRY_SCAN_FRAMES), 0) else (d.(visible := true, prefix := true), 1)
    else if !w.opens && (d.visible || d.prefix) then
      (d.(visible := false, prefix := false, ulSize := -2, scanReady := 0, retry := 0, deferred := false), -1)
    else (d, 0)
  }

  /** The device once the counters are stable; `forced` is set after a forced refresh. */
  function Scanned(d: Device, stable: nat, frame: int, w: World, forced: bool): Device {
    var d := if d.visible && !w.supported then d.(visible := false) else d;
    if d.deferred && frame < d.scanReady then d
    else
      var due := forced || d.deferred;
      var d := if d.deferred then d.(deferred := false, scanReady := 0, ulSize := -2) else d;
      if d.ulSize != -2 && d.tick == stable then d else Rescanned(d.(tick := stable), frame, w, due)
  }

  /** A device that has just appeared is not read at once, unless a read is due. */
  function Rescanned(d: Device, frame: int, w: World, due: bool): Device {
    var (d, r) := Probed(d, frame, w);
    if r > 0 && !due then d.(deferred := true, scanReady := frame + FIRST_SCAN_DELAY_FRAMES) else d
  }

  /** `bdmNeedsUpdate` */
  function Poll(c: Core, i: nat, frame: int, w: World): (r: Core)
    requires i < |c.devices|
    ensures |r.devices| == |c.devices|
  {
    if w.off then c
    else
      var d := Refreshed(c.devices[i]);
      var c' := Debounced(c, frame);
      if Debouncing(c, frame) then c'.(devices := c.devices[i := d])
      else c'.(devices := c.devices[i := Scanned(d, c'.stable, frame, w, c.devices[i].force)])
  }

  /**
    What `bdmNeedsUpdate` answers: 0 for no change, 1 for a list to be read, -1 for a device that has gone. A due
    scan or a forced refresh counts as a change whatever the files' dates say.
   */
  function Answer(c: Core, i: nat, frame: int, w: World): int
    requires i < |c.devices|
  {
    if w.off || Debouncing(c, frame) then 0
    else ScanAnswer(Refreshed(c.devices[i]), Debounced(c, frame).stable, frame, w, c.devices[i].force)
  }

  function ScanAnswer(d: Device, stable: nat, frame: int, w: World, forced: bool): int {
    var d := if d.visible && !w.supported then d.(visible := false) else d;
    if d.deferred && frame < d.scanReady then 0
    else
      var due := forced || d.deferred;
      var d := if d.deferred then d.(deferred := false, scanReady := 0, ulSize := -2) else d;
      if d.ulSize != -2 && d.tick == stable then 0
      else
        var r := Probed(d, frame, w).1;
        if r == -1 then -1 else if due then 1 else 0
  }

  /** A change is only reported once the counters are stable; a list is then ready unless it was deferred anew. */
  lemma {:induction false} ChangeIsStable(c: Core, i: nat, frame: int, w: World)
    requires i < |c.devices| && Answer(c, i, frame, w) != 0
    ensures var c' := Poll(c, i, frame, w);
      var d := c'.devices[i];
      && c'.stable == c'.generation
      && (Answer(c, i, frame, w) == -1 ==> !d.visible && !d.prefix && !d.deferred && d.ulSize == -2)
      && (Answer(c, i, frame, w) == 1 ==> (Ready(c', d, frame) <==> d.visible && d.prefix && !d.deferred))
  {
  }

  // ---- what a poll answers ----

  /** The generation is stable, an unmount is pending, or 180 frames have gone by since the generation was noted. */
  predicate Settled(c: Core, frame: int) {
    c.stable == c.generation || c.unmount || (c.pending == c.generation && frame - c.since >= 180)
  }

  /** The device cannot be opened, and is still shown or still has its path. */
  predicate Gone(d: Device, w: World) {
    !w.opens && ((d.visible && w.supported) || d.prefix)
  }

  /** The device can be opened, but is not shown or has no path yet. */
  predicate Appears(d: Device, w: World) {
    w.opens && !(d.visible && w.supported && d.prefix)
  }

  /** Frame `frame` is before the one that the device's read was deferred to, and no refresh is forced. */
  predicate TooEarly(d: Device, frame: int) {
    !d.force && d.deferred && frame < d.scanReady
  }

  /** A refresh is forced, or the frame that the read was deferred to has come. */
  predicate ScanDue(d: Device, frame: int) {
    d.force || (d.deferred && frame >= d.scanReady)
  }

  /** The list was read, and no event has become stable since. */
  predicate AtRest(d: Device, generation: nat) {
    !d.force && !d.deferred && d.ulSize != -2 && d.tick == generation
  }

  /**
    A poll answers 1 exactly when a scan is due and the device is not gone, and -1 exactly when it is gone and the
    poll gets as far as finding out.
   */
  lemma {:induction false} AnswersExactly(c: Core, i: nat, frame: int, w: World)
    requires i < |c.devices|
    ensures var d := c.devices[i];
      && (Answer(c, i, frame, w) == 1 <==> !w.off && Settled(c, frame) && ScanDue(d, frame) && !Gone(d, w))
      && (Answer(c, i, frame, w) == -1 <==>
            !w.off && Settled(c, frame) && Gone(d, w) && !TooEarly(d, frame) && !AtRest(d, c.generation))
      && -1 <= Answer(c, i, frame, w) <= 1
  {
  }

  /** A poll makes the present generation stable if and only if it is settled; otherwise it is noted, once. */
  lemma {:induction false} PollSettlesExactly(c: Core, i: nat, frame: int, w: World)
    requires i < |c.devices| && !w.off
    ensures var c' := Poll(c, i, frame, w);
      && (c'.stable == c'.generation <==> Settled(c, frame)) && c'.generation == c.generation
      && (if Settled(c, frame) then c.stable != c.generation ==> !c'.unmount
          else c'.pending == c.generation && c'.since == if c.pending == c.generation then c.since else frame)
  {
  }

  /** The device was scanned: its path and visibility are up to date, and a new read may have been deferred. */
  predicate UpToDate(d: Device, d': Device, frame: int, w: World, due: bool) {
    && d'.ulSize == (if due || Gone(d, w) then -2 else d.ulSize)
    && (d'.visible && d'.prefix <==> w.opens && (Appears(d, w) ==> w.known))
    && (d'.deferred <==> Appears(d, w) && (!w.known || !due))
    && (d'.deferred ==> d'.scanReady == frame + if w.known then 300 else 180)
  }

  /** The scan is not put off. */
  predicate Scans(d: Device, stable: nat, frame: int, forced: bool) {
    && !(d.deferred && frame < d.scanReady) && (d.deferred || d.ulSize == -2 || d.tick != stable)
    && (forced ==> d.ulSize == -2)
  }

  lemma {:induction false} ScanDefers(d: Device, stable: nat, frame: int, w: World, forced: bool)
    requires Scans(d, stable, frame, forced)
    ensures var d' := Scanned(d, stable, frame, w, forced);
      && (d'.deferred <==> Appears(d, w) && (!w.known || !(forced || d.deferred)))
      && (d'.deferred ==> d'.scanReady == frame + if w.known then 300 else 180)
  {
  }

  lemma {:induction false} ScanIsUpToDate(d: Device, stable: nat, frame: int, w: World, forced: bool)
    requires Scans(d, stable, frame, forced)
    ensures var d' := Scanned(d, stable, frame, w, forced);
      d'.tick == stable && UpToDate(d, d', frame, w, forced || d.deferred)
    ensures Scanned(d, stable, frame, w, forced).retry == if Gone(d, w) then 0 else d.retry
  {
    ScanDefers(d, stable, frame, w, forced);
  }

  /**
    What a poll with stable counters makes of a device: nothing while its read is deferred or it is at rest, else it
    is brought up to date with this generation.
   */
  lemma {:induction false} PollLeaves(c: Core, i: nat, frame: int, w: World)
    requires i < |c.devices| && !w.off && Settled(c, frame)
    ensures var d, d' := c.devices[i], Poll(c, i, frame, w).devices[i];
      if TooEarly(d, frame) || AtRest(d, c.generation) then d' == d.(visible := d.visible && w.supported)
      else
        && d'.tick == c.generation && d'.retry == (if d.force || Gone(d, w) then 0 else d.retry)
        && UpToDate(d, d', frame, w, ScanDue(d, frame))
  {
    var d := c.devices[i];
    PollSettlesExactly(c, i, frame, w);
    assert !Debouncing(c, frame) && Debounced(c, frame).stable == c.generation;
    if !(TooEarly(d, frame) || AtRest(d, c.generation)) {
      ScanIsUpToDate(Refreshed(d), c.generation, frame, w, d.force);
    }
  }

  // ---- reading the list ----

  /** `bdmDeviceReadyForFilesystem` */
  predicate Ready(c: Core, d: Device, frame: int) {
    && d.visible && d.prefix && c.stable == c.generation && !d.deferred
    && (d.scanReady == 0 || frame >= d.scanReady)
  }

  /** `bdmUpdateGameList`; `size` is the result of the read, negative when it fails. */
  function List(c: Core, i: nat, frame: int, size: int): (r: Core)
    requires i < |c.devices|
    ensures |r.devices| == |c.devices|
  {
    var d := c.devices[i];
    c.(devices := c.devices[i :=
      if !Ready(c, d, frame) then (if d.visible && d.prefix then d else d.(ulSize := -2))
      else if size < 0 then
        Defer(d.(retry := if d.retry < 5 then d.retry + 1 else d.retry), frame, RETRY_SCAN_FRAMES * (d.retry + 1))
      else d.(retry := 0, ulSize := size)])
  }

  /** `bdmInit` */
  function Initialised(d: Device): Device {
    d.(ulSize := -2, scanReady := 0, retry := 0, deferred := false)
  }

  // ---- whole runs ----

  /** A read of a device's list, and whether it succeeded. */
  datatype Read = Read(device: nat, frame: int, ok: bool)

  /**
    `lastEvent` is the frame of the last event; `fails` counts each device's failed reads since the last successful
    one, forced refresh or removal.
   */
  datatype State = State(core: Core, frame: int, lastEvent: int, fails: seq<nat>, attempts: seq<Read>)

  datatype Step =
    | EventStep(e: Event)
    | FrameStep
    | PollStep(i: nat, w: World)
    | ListStep(i: nat, size: int)
    | ForceStep(i: nat)
    | InitStep(i: nat)

  predicate Enabled(s: State, a: Step) {
    && |s.fails| == |s.core.devices|
    && match a
       case PollStep(i, _) => i < |s.core.devices|
       case ListStep(i, _) => i < |s.core.devices|
       case ForceStep(i) => i < |s.core.devices|
       case InitStep(i) => i < |s.core.devices|
       case _ => true
  }

  /** The poll resets the device's retries: a forced refresh, or a removal that it finds. */
  predicate Resets(s: State, i: nat, w: World)
    requires i < |s.core.devices|
  {
    !w.off && (s.core.devices[i].force || Poll(s.core, i, s.frame, w).devices[i].retry < s.core.devices[i].retry)
  }

  function Next(s: State, a: Step): State
    requires Enabled(s, a)
  {
    match a
    case EventStep(e) => s.(core := OnEvent(s.core, e), lastEvent := s.frame)
    case FrameStep => s.(frame := s.frame + 1)
    case PollStep(i, w) =>
      s.(core := Poll(s.core, i, s.frame, w), fails := if Resets(s, i, w) then s.fails[i := 0] else s.fails)
    case ListStep(i, size) =>
      if !Ready(s.core, s.core.devices[i], s.frame) then s.(core := List(s.core, i, s.frame, size))
      else s.(core := List(s.core, i, s.frame, size),
              fails := s.fails[i := if size < 0 then s.fails[i] + 1 else 0],
              attempts := s.attempts + [Read(i, s.frame, size >= 0)])
    case ForceStep(i) => s.(core := s.core.(devices := s.core.devices[i := s.core.devices[i].(force := true)]))
    case InitStep(i) =>
      var devices := s.core.devices[i := Initialised(s.core.devices[i])];
      s.(core := s.core.(devices := devices), fails := s.fails[i := 0])
  }

  predicate Inv(s: State) {
    && |s.fails| == |s.core.devices|
    && s.lastEvent <= s.frame && s.core.since <= s.frame
    && (s.core.pending == s.core.generation ==> s.lastEvent <= s.core.since)
    && s.core.pending <= s.core.generation && s.core.stable <= s.core.generation
    && forall i :: 0 <= i < |s.fails| ==> s.core.devices[i].retry == if s.fails[i] < 5 then s.fails[i] else 5
  }

  /** `count` devices, none of them initialised yet. */
  function Start(count: nat): State {
    State(Initial(count), 0, 0, seq(count, _ => 0), [])
  }

  lemma StartIsInv(count: nat)
    ensures Inv(Start(count))
  {
  }

  lemma {:induction false} StepKeepsInv(s: State, a: Step)
    requires Inv(s) && Enabled(s, a)
    ensures Inv(Next(s, a))
  {
    match a
    case PollStep(i, w) => PollKeepsRetries(s.core, i, s.frame, w);
    case _ =>
  }

  /** A poll leaves the retries alone or takes them to zero, and no other device is touched. */
  lemma {:induction false} PollKeepsRetries(c: Core, i: nat, frame: int, w: World)
    requires i < |c.devices|
    ensures var d, d' := c.devices[i], Poll(c, i, frame, w).devices[i];
      (d'.retry == d.retry || d'.retry == 0) && (!w.off && d.force ==> d'.retry == 0)
    ensures forall k :: 0 <= k < |c.devices| && k != i ==> Poll(c, i, frame, w).devices[k] == c.devices[k]
  {
  }

  /** The stable generation only advances to the present one, on an unmount or after 180 frames without an event. */
  lemma {:induction false} StepDebounces(s: State, a: Step)
    requires Inv(s) && Enabled(s, a) && Next(s, a).core.stable != s.core.stable
    ensures Next(s, a).core.stable == s.core.generation > s.core.stable
    ensures s.core.unmount || s.frame - s.lastEvent >= EVENT_QUIET_FRAMES
  {
  }

  predicate Runs(s: State, run: seq<Step>)
    decreases |run|
  {
    run == [] || (Enabled(s, run[0]) && Runs(Next(s, run[0]), run[1..]))
  }

  function Final(s: State, run: seq<Step>): State
    requires Runs(s, run)
    decreases |run|
  {
    if run == [] then s else Final(Next(s, run[0]), run[1..])
  }

  lemma {:induction false} RunKeepsInv(s: State, run: seq<Step>)
    requires Inv(s) && Runs(s, run)
    ensures Inv(Final(s, run))
    decreases |run|
  {
    if run != [] {
      StepKeepsInv(s, run[0]);
      RunKeepsInv(Next(s, run[0]), run[1..]);
    }
  }

  /** Whenever the stable generation advances, an unmount is pending or 180 frames went by without an event. */
  lemma AdvanceIsDue(s: State, run: seq<Step>, a: Step)
    requires Inv(s) && Runs(s, run) && Enabled(Final(s, run), a)
    ensures var t := Final(s, run);
      Next(t, a).core.stable != t.core.stable ==> t.core.unmount || t.frame - t.lastEvent >= EVENT_QUIET_FRAMES
  {
    RunKeepsInv(s, run);
    var t := Final(s, run);
    if Next(t, a).core.stable != t.core.stable {
      StepDebounces(t, a);
    }
  }

  /** Over every run from the start, so does every advance; and the retries of each device count its failed reads. */
  lemma EveryAdvanceIsDue(count: nat, run: seq<Step>)
    requires Runs(Start(count), run)
    ensures var t := Final(Start(count), run);
      && (forall a :: Enabled(t, a) && Next(t, a).core.stable != t.core.stable ==>
            t.core.unmount || t.frame - t.lastEvent >= EVENT_QUIET_FRAMES)
      && |t.fails| == |t.core.devices|
      && forall i :: 0 <= i < |t.fails| ==> t.core.devices[i].retry == if t.fails[i] < 5 then t.fails[i] else 5
  {
    StartIsInv(count);
    RunKeepsInv(Start(count), run);
    var t := Final(Start(count), run);
    forall a | Enabled(t, a) && Next(t, a).core.stable != t.core.stable
      ensures t.core.unmount || t.frame - t.lastEvent >= EVENT_QUIET_FRAMES
    {
      AdvanceIsDue(Start(count), run, a);
    }
  }

  // ---- deferred reads ----

  /** Nobody forces a refresh of the device or initialises it. */
  predicate Undisturbed(run: seq<Step>, i: nat) {
    ForceStep(i) !in run && InitStep(i) !in run
  }

  /** The device's read is deferred to frame `ready`, and no refresh is being forced. */
  predicate Waiting(s: State, i: nat, ready: int) {
    && i < |s.core.devices|
    && s.core.devices[i].deferred && s.core.devices[i].scanReady == ready && !s.core.devices[i].force
  }

  /** Nothing but a forced refresh or initialisation shortens the wait: not even a removal is noticed before its end. */
  lemma {:induction false} StepWaits(s: State, a: Step, i: nat, ready: int)
    requires Enabled(s, a) && Undisturbed([a], i) && Waiting(s, i, ready) && s.frame < ready
    ensures Waiting(Next(s, a), i, ready)
    ensures s.attempts <= Next(s, a).attempts
    ensures forall k :: |s.attempts| <= k < |Next(s, a).attempts| ==> Next(s, a).attempts[k].device != i
  {
    assert a == [a][0];
  }

  /** Every read after `s`, of whatever device, is at or after `frame`. */
  predicate ReadsFrom(s: State, s': State, frame: int) {
    s.attempts <= s'.attempts && forall k :: |s.attempts| <= k < |s'.attempts| ==> s'.attempts[k].frame >= frame
  }

  lemma {:induction false} TimeGoesOn(s: State, run: seq<Step>, frame: int)
    requires Runs(s, run) && s.frame >= frame
    ensures ReadsFrom(s, Final(s, run), frame)
    decreases |run|
  {
    if run != [] {
      TimeGoesOn(Next(s, run[0]), run[1..], frame);
    }
  }

  /** While a read is deferred, the device's list is not read before its ready frame, unless it is disturbed. */
  lemma {:induction false} NoEarlyRead(s: State, run: seq<Step>, i: nat, ready: int)
    requires Waiting(s, i, ready) && Runs(s, run) && Undisturbed(run, i)
    ensures var s' := Final(s, run);
      && s.attempts <= s'.attempts
      && forall k :: |s.attempts| <= k < |s'.attempts| && s'.attempts[k].device == i ==> s'.attempts[k].frame >= ready
    decreases |run|
  {
    if s.frame >= ready {
      TimeGoesOn(s, run, ready);
    } else if run != [] {
      assert run[0] in run;
      StepWaits(s, run[0], i, ready);
      assert Undisturbed(run[1..], i);
      NoEarlyRead(Next(s, run[0]), run[1..], i, ready);
    }
  }

  function Backoff(k: nat): int {
    if 180 * k > 900 then 900 else 180 * k
  }

  /** The `k`-th failed read in a row defers the next one by min(900, 180k) frames. */
  lemma {:induction false} FailureBacksOff(s: State, i: nat, size: int, run: seq<Step>)
    requires Inv(s) && Enabled(s, ListStep(i, size)) && Ready(s.core, s.core.devices[i], s.frame) && size < 0
    requires !s.core.devices[i].force && Runs(Next(s, ListStep(i, size)), run) && Undisturbed(run, i)
    ensures var t := Next(s, ListStep(i, size));
      var k := t.fails[i];
      && k == s.fails[i] + 1 && Waiting(t, i, s.frame + Backoff(k))
      && forall j :: |t.attempts| <= j < |Final(t, run).attempts| && Final(t, run).attempts[j].device == i ==>
           Final(t, run).attempts[j].frame >= s.frame + Backoff(k)
  {
    var t := Next(s, ListStep(i, size));
    NoEarlyRead(t, run, i, s.frame + Backoff(t.fails[i]));
  }

  /** A device that has just appeared is first read after 300 frames. */
  lemma {:induction false} FirstScanWaits(s: State, i: nat, w: World, run: seq<Step>)
    requires Inv(s) && Enabled(s, PollStep(i, w)) && !w.off && w.supported && w.opens && w.known
      && !Debouncing(s.core, s.frame)
    requires var d := s.core.devices[i]; !d.force && !d.deferred && d.ulSize == -2 && (!d.visible || !d.prefix)
    requires Runs(Next(s, PollStep(i, w)), run) && Undisturbed(run, i)
    ensures var t := Next(s, PollStep(i, w));
      forall j :: |t.attempts| <= j < |Final(t, run).attempts| && Final(t, run).attempts[j].device == i ==>
        Final(t, run).attempts[j].frame >= s.frame + FIRST_SCAN_DELAY_FRAMES
  {
    var t := Next(s, PollStep(i, w));
    NoEarlyRead(t, run, i, s.frame + FIRST_SCAN_DELAY_FRAMES);
  }

  // ---- what a run comes to ----

  /** After one event, the next poll makes the generation stable exactly on an unmount. */
  lemma {:induction false} EventIsDebounced(s: State, e: Event, i: nat, w: World)
    requires Inv(s) && i < |s.core.devices| && !w.off
    ensures var t := Next(s, EventStep(e));
      Next(t, PollStep(i, w)).core.stable == t.core.generation <==> e == Unmount || (e == Other && s.core.unmount)
  {
    PollSettlesExactly(Next(s, EventStep(e)).core, i, s.frame, w);
  }

  /** The generation is stable, or was noted by frame `frame`. */
  predicate NotedBy(c: Core, frame: int) {
    c.stable == c.generation || (c.pending == c.generation && c.since <= frame)
  }

  predicate NoEvents(run: seq<Step>) {
    forall k :: 0 <= k < |run| ==> !run[k].EventStep?
  }

  lemma {:induction false} NotedStaysNoted(s: State, run: seq<Step>, frame: int)
    requires NotedBy(s.core, frame) && Runs(s, run) && NoEvents(run)
    ensures NotedBy(Final(s, run).core, frame)
    decreases |run|
  {
    if run != [] {
      NotedStaysNoted(Next(s, run[0]), run[1..], frame);
    }
  }

  /** Between two polls at least 180 frames apart and without an event, the generation becomes stable. */
  lemma {:induction false} QuietSettles(s: State, i: nat, w: World, run: seq<Step>, k: nat, v: World)
    requires Inv(s) && i < |s.core.devices| && !w.off && Runs(Next(s, PollStep(i, w)), run) && NoEvents(run)
    requires var t := Final(Next(s, PollStep(i, w)), run);
      Enabled(t, PollStep(k, v)) && !v.off && t.frame - s.frame >= 180
    ensures var t := Final(Next(s, PollStep(i, w)), run);
      Next(t, PollStep(k, v)).core.stable == t.core.generation
  {
    var p := Next(s, PollStep(i, w));
    PollSettlesExactly(s.core, i, s.frame, w);
    NotedStaysNoted(p, run, s.frame);
    PollSettlesExactly(Final(p, run).core, k, Final(p, run).frame, v);
  }

  /** A read happens exactly when the device is shown, the counters are stable and nothing is deferred any more. */
  lemma {:induction false} ReadsExactly(s: State, i: nat, size: int)
    requires Enabled(s, ListStep(i, size))
    ensures var t, d := Next(s, ListStep(i, size)), s.core.devices[i];
      var read := d.visible && d.prefix && s.core.stable == s.core.generation && !d.deferred
        && (d.scanReady == 0 || s.frame >= d.scanReady);
      && t.attempts == s.attempts + (if read then [Read(i, s.frame, size >= 0)] else [])
      && (read && size >= 0 ==> t.core.devices[i] == d.(retry := 0, ulSize := size))
      && (!read && d.visible && d.prefix ==> t.core.devices[i] == d)
      && (!(d.visible && d.prefix) ==> t.core.devices[i] == d.(ulSize := -2))
  {
  }

  /** When the frame comes that a read was deferred to, a poll reports it and the read takes place. */
  lemma {:induction false} DeferredReadHappens(s: State, i: nat, w: World, size: int)
    requires Inv(s) && i < |s.core.devices| && !w.off && w.supported && w.opens && Settled(s.core, s.frame)
    requires var d := s.core.devices[i]; d.deferred && s.frame >= d.scanReady && d.visible && d.prefix
    ensures Answer(s.core, i, s.frame, w) == 1
    ensures Next(Next(s, PollStep(i, w)), ListStep(i, size)).attempts == s.attempts + [Read(i, s.frame, size >= 0)]
  {
    AnswersExactly(s.core, i, s.frame, w);
    PollLeaves(s.core, i, s.frame, w);
    PollSettlesExactly(s.core, i, s.frame, w);
    ReadsExactly(Next(s, PollStep(i, w)), i, size);
  }

  // ---- the code, step by step ----

  class Monitor {
    var generation: nat
    var stable: nat
    var pending: nat
    var since: int
    var unmount: bool
    const devices: array<Device>

    ghost function View(): Core
      reads this, devices
    {
      Core(generation, stable, pending, since, unmount, devices[..])
    }

    constructor (count: nat)
      ensures View() == Initial(count) && fresh(devices)
    {
      generation, stable, pending, since, unmount := 0, 0, 0, 0, false;
      devices := new Device[count](_ => Device(false, 0, -2, 0, 0, false, false, false));
      new;
      assert devices[..] == Initial(count).devices;
    }

    method EventHandler(e: Event)
      modifies this
      ensures View() == OnEvent(old(View()), e)
    {
      generation := generation + 1;
      if e == Unmount {
        unmount := true;
      } else if e == Mount {
        unmount := false;
      }
    }

    method Init(i: nat)
      requires i < devices.Length
      modifies devices
      ensures devices[..] == old(devices[..])[i := Initialised(old(devices[i]))]
    {
      devices[i] := devices[i].(ulSize := -2, scanReady := 0, retry := 0, deferred := false);
    }

    /** `bdmUpdateDeviceData` */
    method Probe(i: nat, frame: int, w: World) returns (r: int)
      requires i < devices.Length
      modifies devices
      ensures devices[..] == old(devices[..])[i := Probed(old(devices[i]), frame, w).0]
        && r == Probed(old(devices[i]), frame, w).1
    {
      var d := devices[i];
      if w.opens && (!d.visible || !d.prefix) {
        if !w.known {
          devices[i] := Defer(d, frame, RETRY_SCAN_FRAMES);
          return 0;
        }
        devices[i] := d.(visible := true, prefix := true);
        return 1;
      } else if !w.opens && (d.visible || d.prefix) {
        devices[i] := d.(visible := false, prefix := false, ulSize := -2, scanReady := 0, retry := 0,
          deferred := false);
        return -1;
      }
      r := 0;
    }

    /** The part of `bdmNeedsUpdate` behind the debouncing. */
    method ScanDevice(i: nat, frame: int, w: World, forced: bool) returns (answer: int)
      requires i < devices.Length
      modifies devices
      ensures devices[..] == old(devices[..])[i := Scanned(old(devices[i]), stable, frame, w, forced)]
      ensures answer == ScanAnswer(old(devices[i]), stable, frame, w, forced)
    {
      var result := forced;
      if devices[i].visible && !w.supported {
        devices[i] := devices[i].(visible := false);
      }
      if devices[i].deferred {
        if frame < devices[i].scanReady {
          return 0;
        }
        devices[i] := devices[i].(deferred := false, scanReady := 0, ulSize := -2);
        result := true;
      }
      if devices[i].ulSize != -2 && devices[i].tick == stable {
        return 0;
      }
      devices[i] := devices[i].(tick := stable);
      answer := Rescan(i, frame, w, result);
    }

    method Rescan(i: nat, frame: int, w: World, due: bool) returns (answer: int)
      requires i < devices.Length
      modifies devices
      ensures devices[..] == old(devices[..])[i := Rescanned(old(devices[i]), frame, w, due)]
      ensures answer == if Probed(old(devices[i]), frame, w).1 == -1 then -1 else if due then 1 else 0
    {
      var r := Probe(i, frame, w);
      if r > 0 && !due {
        devices[i] := devices[i].(deferred := true, scanReady := frame + FIRST_SCAN_DELAY_FRAMES);
        return 0;
      }
      if r == 0 && !due {
        return 0;
      }
      answer := if r != 0 then r else 1;
    }

    method NeedsUpdate(i: nat, frame: int, w: World) returns (answer: int)
      requires i < devices.Length
      modifies this, devices
      ensures View() == Poll(old(View()), i, frame, w) && answer == Answer(old(View()), i, frame, w)
    {
      if w.off {
        return 0;
      }
      var forced := devices[i].force;
      if forced {
        devices[i] := devices[i].(force := false, tick := -1, ulSize := -2, scanReady := 0, retry := 0,
          deferred := false);
      }
      if stable != generation {
        if pending != generation {
          pending, since := generation, frame;
          if !unmount {
            return 0;
          }
        }
        if !unmount && frame - since < EVENT_QUIET_FRAMES {
          return 0;
        }
        stable, unmount := generation, false;
      }
      answer := ScanDevice(i, frame, w, forced);
    }

    method UpdateGameList(i: nat, frame: int, size: int)
      requires i < devices.Length
      modifies devices
      ensures View() == List(old(View()), i, frame, size)
    {
      var d := devices[i];
      if !(d.visible && d.prefix && stable == generation && !d.deferred && (d.scanReady == 0 || frame >= d.scanReady)) {
        if !(d.visible && d.prefix) {
          devices[i] := d.(ulSize := -2);
        }
        return;
      }
      if size < 0 {
        devices[i] := Defer(d.(retry := if d.retry < 5 then d.retry + 1 else d.retry), frame,
          RETRY_SCAN_FRAMES * (d.retry + 1));
        return;
      }
      devices[i] := d.(retry := 0, ulSize := size);
    }
  }
}
