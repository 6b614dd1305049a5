/** The play history of src/OSDHistory.c: the table update inside `AddHistoryRecord`. */
module History {
  const MAX_HISTORY_ENTRIES: nat := 21
  const INT_MAX: nat := 0x7FFFFFFF

  type U8 = x: nat | x < 0x100
  type U16 = x: nat | x < 0x1_0000

  /** A record; a blank one has no name. `mask` are the bits set in the bit mask. */
  datatype Entry = Entry(name: string, count: U8, mask: set<nat>, shift: nat, date: U16)

  const SIX_BITS: set<nat> := {0, 1, 2, 3, 4, 5}

  /** `bitmask & 0x3F` is 0x3F. */
  predicate Full(mask: set<nat>) {
    SIX_BITS <= mask
  }

  /** One more launch. `bit` is the one drawn by lot among the free ones, if one is needed. */
  function Launch(e: Entry, bit: nat, now: U16): Entry {
    if !Full(e.mask) then
      var count := if e.count + 1 >= 0x80 then 0x7F else e.count + 1;
      if count >= 14 && (count - 14) % 10 == 0
        then e.(date := now, count := count, shift := bit, mask := e.mask + {bit})
      else e.(date := now, count := count)
    else if e.count < 0x3F then e.(date := now, count := e.count + 1)
    else e.(date := now, count := 0x3F, shift := 7)
  }

  function Fresh(name: string, now: U16): Entry {
    Entry(name, 1, {0}, 0, now)
  }

  // ---- the victim ----

  datatype Scan = Scan(best: nat, count: nat, stamp: nat)

  /** The scan over the first `n` records. */
  function ScanOf(es: seq<Entry>, n: nat): Scan
    requires n <= |es|
  {
    if n == 0 then Scan(0, INT_MAX, INT_MAX) else Consider(ScanOf(es, n - 1), n - 1, es[n - 1])
  }

  /** The stamp is not reset when a smaller count is found. */
  function Consider(s: Scan, i: nat, e: Entry): Scan {
    var s := if e.count < s.count then Scan(i, e.count, s.stamp) else s;
    if s.count == e.count && e.date < s.stamp then Scan(i, s.count, e.date) else s
  }

  function Victim(es: seq<Entry>): nat {
    ScanOf(es, |es|).best
  }

  // ---- the update ----

  function Updated(es: seq<Entry>, name: string, bit: nat, now: U16): (r: seq<Entry>)
    ensures |r| == |es|
  {
    seq(|es|, i requires 0 <= i < |es| => if es[i].name == name then Launch(es[i], bit, now) else es[i])
  }

  predicate Known(es: seq<Entry>, name: string) {
    exists i :: 0 <= i < |es| && es[i].name == name
  }

  function Blanks(es: seq<Entry>, n: nat): seq<nat>
    requires n <= |es|
  {
    if n == 0 then [] else Blanks(es, n - 1) + if es[n - 1].name == "" then [n - 1] else []
  }

  /** Records whose launches are used up. */
  function UsedUp(es: seq<Entry>, n: nat): (k: nat)
    requires n <= |es|
    ensures k <= n
  {
    if n == 0 then 0 else UsedUp(es, n - 1) + if es[n - 1].name != "" && es[n - 1].shift == 7 then 1 else 0
  }

  /** Where a new record goes: a blank slot drawn by lot, else over the victim. */
  function SlotFor(es: seq<Entry>, roll: nat): (i: nat)
    requires es != []
    ensures i < |es|
  {
    var blanks := Blanks(es, |es|);
    BlanksAre(es, |es|);
    VictimIs(es, |es|);
    if blanks != [] then blanks[roll % |blanks|] else Victim(es)
  }

  function Add(es: seq<Entry>, name: string, bit: nat, roll: nat, now: U16): (r: seq<Entry>)
    requires es != []
    ensures |r| == |es|
  {
    if Known(es, name) then Updated(es, name, bit, now)
    else if UsedUp(es, |es|) == |es| then es
    else es[SlotFor(es, roll) := Fresh(name, now)]
  }

  lemma {:induction false} BlanksAre(es: seq<Entry>, n: nat)
    requires n <= |es|
    ensures forall k :: 0 <= k < |Blanks(es, n)| ==> Blanks(es, n)[k] < n && es[Blanks(es, n)[k]].name == ""
    ensures Blanks(es, n) == [] <==> forall i :: 0 <= i < n ==> es[i].name != ""
  {
    if n > 0 {
      BlanksAre(es, n - 1);
      var b := Blanks(es, n - 1);
      assert forall k :: 0 <= k < |b| ==> Blanks(es, n)[k] == b[k];
    }
  }

  /** The scan ends at a record with the least launch count. */
  lemma {:induction false} VictimIs(es: seq<Entry>, n: nat)
    requires n <= |es|
    ensures var s := ScanOf(es, n);
      && (n > 0 ==> s.best < n && s.count == es[s.best].count)
      && (forall i :: 0 <= i < n ==> s.count <= es[i].count) && (n == 0 ==> s.count == INT_MAX)
  {
    if n > 0 {
      VictimIs(es, n - 1);
    }
  }

  // ---- ties ----

  /** `f` is the first record with the least launch count. */
  predicate FirstLeast(es: seq<Entry>, f: nat) {
    && f < |es|
    && (forall i :: 0 <= i < |es| ==> es[f].count <= es[i].count)
    && (forall i :: 0 <= i < f ==> es[f].count < es[i].count)
  }

  /** `v` has the least launch count, and among those the oldest date. */
  predicate OldestLeast(es: seq<Entry>, v: nat) {
    && v < |es|
    && (forall i :: 0 <= i < |es| ==> es[v].count <= es[i].count)
    && (forall i :: 0 <= i < |es| && es[i].count == es[v].count ==> es[v].date <= es[i].date)
  }

  /** From the first least record on: the scan stays there until a tie is older than the stale stamp. */
  lemma {:induction false} ScanAfter(es: seq<Entry>, f: nat, n: nat)
    requires FirstLeast(es, f) && f < n <= |es|
    ensures var s, stale := ScanOf(es, n), ScanOf(es, f).stamp;
      && s.count == es[f].count && f <= s.best < n && es[s.best].count == es[f].count
      && ((s.best == f && s.stamp == stale
        && (forall i :: f <= i < n && es[i].count == es[f].count ==> es[i].date >= stale))
          || (s.stamp == es[s.best].date && s.stamp < stale))
      && (forall i :: f <= i < n && es[i].count == es[f].count && es[i].date < stale ==> s.stamp <= es[i].date)
    decreases n
  {
    if n == f + 1 {
      VictimIs(es, f);
    } else {
      ScanAfter(es, f, n - 1);
    }
  }

  /** No record before it has been launched less often. */
  predicate Leading(es: seq<Entry>, j: nat)
    requires j < |es|
  {
    forall i :: 0 <= i < j ==> es[j].count <= es[i].count
  }

  /** The date is older than every leading one among the first `n`. */
  predicate OlderThanLeading(es: seq<Entry>, n: nat, date: U16)
    requires n <= |es|
  {
    forall j {:trigger Leading(es, j)} :: 0 <= j < n && Leading(es, j) ==> date < es[j].date
  }

  lemma LeadingIs(es: seq<Entry>, j: nat)
    requires j < |es|
    ensures Leading(es, j) <==> es[j].count <= ScanOf(es, j).count
  {
    VictimIs(es, j);
  }

  /** The stamp is the oldest date among the leading records so far. */
  lemma {:induction false} StampIs(es: seq<Entry>, n: nat, date: U16)
    requires n <= |es|
    ensures date < ScanOf(es, n).stamp <==> OlderThanLeading(es, n, date)
  {
    if n > 0 {
      StampIs(es, n - 1, date);
      LeadingIs(es, n - 1);
      StampStep(ScanOf(es, n - 1), n - 1, es[n - 1], date);
      OlderStep(es, n, date);
    }
  }

  lemma StampStep(s: Scan, i: nat, e: Entry, date: U16)
    ensures date < Consider(s, i, e).stamp <==> date < s.stamp && (e.count <= s.count ==> date < e.date)
  {
  }

  lemma OlderStep(es: seq<Entry>, n: nat, date: U16)
    requires 0 < n <= |es|
    ensures OlderThanLeading(es, n, date) <==>
      OlderThanLeading(es, n - 1, date) && (Leading(es, n - 1) ==> date < es[n - 1].date)
  {
  }

  /**
    The victim is an oldest one among the least launched exactly when the first of these is, or when one of these
    is older than every leading record before them.
   */
  lemma {:induction false} TieBreakIsRight(es: seq<Entry>, f: nat)
    requires FirstLeast(es, f)
    ensures OldestLeast(es, Victim(es)) <==>
      || OldestLeast(es, f)
      || exists i :: f <= i < |es| && es[i].count == es[f].count && OlderThanLeading(es, f, es[i].date)
  {
    ScanAfter(es, f, |es|);
    forall i | f <= i < |es| ensures es[i].date < ScanOf(es, f).stamp <==> OlderThanLeading(es, f, es[i].date) {
      StampIs(es, f, es[i].date);
    }
  }

  /** The date of a record with more launches, passed first, hides the older of two records launched once. */
  lemma TieBreakGoesWrong()
    ensures var es := [Entry("A", 5, {0}, 0, 1), Entry("B", 1, {0}, 0, 9), Entry("C", 1, {0}, 0, 3)];
      Victim(es) == 1 && !OldestLeast(es, 1)
  {
    var es := [Entry("A", 5, {0}, 0, 1), Entry("B", 1, {0}, 0, 9), Entry("C", 1, {0}, 0, 3)];
    assert ScanOf(es, 1) == Scan(0, 5, 1);
    assert ScanOf(es, 2) == Scan(1, 1, 1);
    assert es[2].date < es[1].date;
  }

  // ---- how a record grows ----

  /** One launch of a game; `bit` and `roll` are the two draws. */
  datatype Play = Play(name: string, bit: nat, roll: nat, now: U16)

  /** At these launches a bit is drawn. */
  predicate Milestone(n: nat) {
    n == 14 || n == 24 || n == 34 || n == 44 || n == 54
  }

  /** The bits a record has received: bit 0 when it is made, and one at each milestone. */
  function Lots(plays: seq<Play>): (bits: seq<nat>)
    ensures bits != []
  {
    if plays == [] then [0]
    else Lots(plays[..|plays| - 1]) + if Milestone(|plays|) then [plays[|plays| - 1].bit] else []
  }

  /** A record after these launches. */
  predicate Grown(e: Entry, plays: seq<Play>) {
    var n, bits := |plays|, Lots(plays);
    && n >= 1
    && (forall k :: 0 <= k < n ==> plays[k].name == e.name)
    && e.count == (if n < 63 then n else 63)
    && e.mask == (set b | b in bits) && e.mask <= SIX_BITS && |e.mask| == |bits|
    && e.shift == (if n >= 64 then 7 else bits[|bits| - 1])
    && e.date == plays[n - 1].now
  }

  function Milestones(n: nat): nat {
    (if n >= 14 then 1 else 0) + (if n >= 24 then 1 else 0) + (if n >= 34 then 1 else 0)
    + (if n >= 44 then 1 else 0) + (if n >= 54 then 1 else 0)
  }

  lemma {:induction false} LotsAre(plays: seq<Play>)
    ensures |Lots(plays)| == 1 + Milestones(|plays|)
  {
    if plays != [] {
      LotsAre(plays[..|plays| - 1]);
    }
  }

  lemma FullIsSix(mask: set<nat>)
    requires mask <= SIX_BITS
    ensures |mask| <= 6 && (Full(mask) <==> |mask| == 6)
  {
    assert |SIX_BITS| == 6;
    var rest := SIX_BITS - mask;
    assert SIX_BITS == mask + rest;
    assert |SIX_BITS| == |mask| + |rest|;
    if |mask| == 6 {
      assert rest == {};
    }
  }

  lemma LotsStep(plays: seq<Play>, p: Play)
    ensures Lots(plays + [p]) == Lots(plays) + if Milestone(|plays| + 1) then [p.bit] else []
  {
    assert (plays + [p])[..|plays|] == plays;
  }

  lemma MilestonesAre(e: Entry, plays: seq<Play>)
    requires Grown(e, plays)
    ensures Full(e.mask) <==> |plays| >= 54
    ensures var n := |plays| + 1; Milestone(n) <==> !Full(e.mask) && n >= 14 && (n - 14) % 10 == 0
  {
    FullIsSix(e.mask);
    LotsAre(plays);
  }

  lemma MilestoneDraws(e: Entry, plays: seq<Play>, p: Play)
    requires Grown(e, plays) && Milestone(|plays| + 1)
    ensures Launch(e, p.bit, p.now) == Entry(e.name, |plays| + 1, e.mask + {p.bit}, p.bit, p.now)
  {
    MilestonesAre(e, plays);
  }

  lemma OneMoreBit(mask: set<nat>, bits: seq<nat>, bit: nat)
    requires mask == (set b | b in bits) && |mask| == |bits| && bit !in mask
    ensures mask + {bit} == (set b | b in bits + [bit]) && |mask + {bit}| == |bits + [bit]|
  {
  }

  lemma {:induction false} MilestoneGrows(e: Entry, plays: seq<Play>, p: Play)
    requires Grown(e, plays) && p.name == e.name && Milestone(|plays| + 1)
    requires p.bit in SIX_BITS && p.bit !in e.mask
    ensures Grown(Launch(e, p.bit, p.now), plays + [p])
  {
    MilestoneDraws(e, plays, p);
    LotsStep(plays, p);
    OneMoreBit(e.mask, Lots(plays), p.bit);
  }

  lemma {:induction false} LaunchGrows(e: Entry, plays: seq<Play>, p: Play)
    requires Grown(e, plays) && p.name == e.name && (!Full(e.mask) ==> p.bit in SIX_BITS && p.bit !in e.mask)
    ensures Grown(Launch(e, p.bit, p.now), plays + [p])
  {
    MilestonesAre(e, plays);
    if Milestone(|plays| + 1) {
      MilestoneGrows(e, plays, p);
    } else {
      LotsStep(plays, p);
      assert Lots(plays + [p]) == Lots(plays);
    }
  }

  lemma FreshIsGrown(p: Play)
    ensures Grown(Entry(p.name, 1, {0}, 0, p.now), [p])
  {
    assert [p][..0] == [];
    assert Lots([p]) == [0];
  }

  // ---- whole runs ----

  /** The table, and for each record made during the run its launches, the first one included. */
  datatype State = State(es: seq<Entry>, launches: map<nat, seq<Play>>)

  /** The name fits, and the bit drawn is free in the record it is drawn for. */
  predicate Fair(s: State, p: Play) {
    && 0 < |p.name| <= 15
    && forall i :: 0 <= i < |s.es| && s.es[i].name == p.name && !Full(s.es[i].mask) ==>
      p.bit in SIX_BITS && p.bit !in s.es[i].mask
  }

  function Next(s: State, p: Play): State
    requires s.es != []
  {
    var es := Add(s.es, p.name, p.bit, p.roll, p.now);
    if Known(s.es, p.name) then
      State(es, map i | i in s.launches ::
        if i < |s.es| && s.es[i].name == p.name then s.launches[i] + [p] else s.launches[i])
    else if UsedUp(s.es, |s.es|) == |s.es| then s
    else State(es, s.launches[SlotFor(s.es, p.roll) := [p]])
  }

  predicate Distinct(es: seq<Entry>) {
    forall i, j :: 0 <= i < j < |es| && es[i].name != "" ==> es[i].name != es[j].name
  }

  predicate Inv(s: State) {
    && s.es != [] && Distinct(s.es)
    && forall i :: i in s.launches ==> i < |s.es| && s.es[i].name != "" && Grown(s.es[i], s.launches[i])
  }

  lemma {:induction false} NextKeepsInv(s: State, p: Play)
    requires Inv(s) && Fair(s, p)
    ensures Inv(Next(s, p))
  {
    if Known(s.es, p.name) {
      forall i | i in s.launches && s.es[i].name == p.name
        ensures Grown(Launch(s.es[i], p.bit, p.now), s.launches[i] + [p])
      {
        LaunchGrows(s.es[i], s.launches[i], p);
      }
    } else {
      FreshIsGrown(p);
    }
  }

  predicate Runs(s: State, plays: seq<Play>)
    decreases |plays|
  {
    s.es != [] && (plays == [] || (Fair(s, plays[0]) && Runs(Next(s, plays[0]), plays[1..])))
  }

  function Final(s: State, plays: seq<Play>): State
    requires Runs(s, plays)
    decreases |plays|
  {
    if plays == [] then s else Final(Next(s, plays[0]), plays[1..])
  }

  /**
    Over every run, from any table of distinct names: names stay distinct, and a record made during the run is what
    its launches make it: with `n` of them it has count min(n, 63), bit 0 and the bits drawn at the 14th, 24th, 34th,
    44th and 54th, the last of these as shift, 7 from the 64th on, and the date of the last launch.
   */
  lemma {:induction false} EveryRunIsCounted(s: State, plays: seq<Play>)
    requires Inv(s) && Runs(s, plays)
    ensures var s' := Final(s, plays);
      Distinct(s'.es) && forall i :: i in s'.launches ==> i < |s'.es| && Grown(s'.es[i], s'.launches[i])
    decreases |plays|
  {
    if plays != [] {
      NextKeepsInv(s, plays[0]);
      EveryRunIsCounted(Next(s, plays[0]), plays[1..]);
    }
  }

  /**
    A new name takes a blank slot if there is one; a record is lost only when there is none, and then it has the
    least launch count; and it is refused exactly when every record is used up.
   */
  lemma {:induction false} NewcomerReplaces(es: seq<Entry>, p: Play)
    requires es != [] && !Known(es, p.name) && p.name != ""
    ensures var es' := Add(es, p.name, p.bit, p.roll, p.now);
      var full := forall i :: 0 <= i < |es| ==> es[i].name != "" && es[i].shift == 7;
      && (full <==> es' == es)
      && (!full ==> exists k ::
            && 0 <= k < |es| && es' == es[k := Entry(p.name, 1, {0}, 0, p.now)]
            && (es[k].name == "" || ((forall i :: 0 <= i < |es| ==> es[i].name != "" && es[k].count <= es[i].count))))
  {
    UsedUpIs(es, |es|);
    BlanksAre(es, |es|);
    VictimIs(es, |es|);
    if UsedUp(es, |es|) != |es| {
      var k := SlotFor(es, p.roll);
      assert es[k := Fresh(p.name, p.now)][k].name == p.name;
    }
  }

  /** A known name changes its own record only. */
  lemma OthersStay(es: seq<Entry>, p: Play)
    requires Known(es, p.name)
    ensures var es' := Add(es, p.name, p.bit, p.roll, p.now);
      forall i :: 0 <= i < |es| ==> es'[i].name == es[i].name && (es[i].name != p.name ==> es'[i] == es[i])
  {
  }

  lemma {:induction false} BlankIsListed(es: seq<Entry>, n: nat, k: nat) returns (r: nat)
    requires k < n <= |es| && es[k].name == ""
    ensures r < |Blanks(es, n)| && Blanks(es, n)[r] == k
  {
    if k == n - 1 {
      r := |Blanks(es, n - 1)|;
    } else {
      r := BlankIsListed(es, n - 1, k);
    }
  }

  /** Every blank slot can be drawn. */
  lemma {:induction false} EveryBlankCanBeDrawn(es: seq<Entry>, p: Play, k: nat) returns (roll: nat)
    requires !Known(es, p.name) && k < |es| && es[k].name == ""
    ensures Add(es, p.name, p.bit, roll, p.now) == es[k := Entry(p.name, 1, {0}, 0, p.now)]
  {
    UsedUpIs(es, |es|);
    roll := BlankIsListed(es, |es|, k);
  }

  lemma {:induction false} UsedUpIs(es: seq<Entry>, n: nat)
    requires n <= |es|
    ensures UsedUp(es, n) == n <==> forall i :: 0 <= i < n ==> es[i].name != "" && es[i].shift == 7
  {
    if n > 0 {
      UsedUpIs(es, n - 1);
    }
  }

  // ---- the table in place ----

  /** The first loop: looks for the victim and counts the launch in one go. */
  method Count(entries: array<Entry>, name: string, bit: nat, now: U16) returns (least: nat, isNew: bool)
    modifies entries
    ensures entries[..] == Updated(old(entries[..]), name, bit, now)
    ensures isNew == !Known(old(entries[..]), name) && least == Victim(old(entries[..]))
  {
    ghost var es := entries[..];
    var stamp, count, i := INT_MAX, INT_MAX, 0;
    least, isNew := 0, true;
    while i < entries.Length
      invariant 0 <= i <= entries.Length
      invariant Scan(least, count, stamp) == ScanOf(es, i)
      invariant isNew <==> forall k :: 0 <= k < i ==> es[k].name != name
      invariant forall k :: 0 <= k < i ==> entries[k] == Updated(es, name, bit, now)[k]
      invariant forall k :: i <= k < entries.Length ==> entries[k] == es[k]
    {
      if entries[i].count < count {
        least, count := i, entries[i].count;
      }
      if count == entries[i].count && entries[i].date < stamp {
        stamp, least := entries[i].date, i;
      }
      if entries[i].name == name {
        isNew := false;
        entries[i] := Launch(entries[i], bit, now);
      }
      i := i + 1;
    }
    assert es[..|es|] == es;
  }

  /** The table update of `AddHistoryRecord`. */
  method AddRecord(entries: array<Entry>, name: string, bit: nat, roll: nat, now: U16)
    requires entries.Length == MAX_HISTORY_ENTRIES
    modifies entries
    ensures entries[..] == Add(old(entries[..]), name, bit, roll, now)
  {
    ghost var es := entries[..];
    var least, isNew := Count(entries, name, bit, now);
    if isNew {
      assert entries[..] == es;
      var blanks, used, i := [], 0, 0;
      while i < entries.Length
        invariant 0 <= i <= entries.Length && blanks == Blanks(es, i) && used == UsedUp(es, i) && entries[..] == es
      {
        if entries[i].name == "" {
          blanks := blanks + [i];
        } else if entries[i].shift == 7 {
          used := used + 1;
        }
        i := i + 1;
      }
      BlanksAre(es, |es|);
      VictimIs(es, |es|);
      if used != entries.Length {
        var slot := if |blanks| > 0 then blanks[roll % |blanks|] else least;
        entries[slot] := Fresh(name, now);
      }
    }
  }
}
