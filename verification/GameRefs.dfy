/**
  Stable handles for games, src/opl.c: a table of references that is only appended to. A handle is an index into
  it; the reference finds its game again by startup file or title after the source list was reordered.
 */
module GameRefs {
  import opened Prelude

  const FLAG: nat := 0x40000000
  const INDEX_MASK: nat := 0x3FFFFFFF
  const STARTUP_MAX: nat := 11
  const TITLE_MAX: nat := 127

  /** A row of a source list. Either text may be missing. Texts hold no NUL. */
  datatype Game = Game(startup: Option<string>, title: Option<string>)

  datatype Ref = Ref(mode: int, sourceId: int, startup: string, title: string)

  const BLANK: Ref := Ref(0, 0, "", "")

  /** One entry per mode; `None`: no support for that mode. */
  datatype Support = Support(enabled: bool, merged: bool, rows: seq<Game>)
  type Sources = seq<Option<Support>>

  /** `strcmp` of a text against a stored one, neither of them empty. */
  predicate SameText(t: Option<string>, stored: string) {
    t == Some(stored) && stored != ""
  }

  predicate Matches(ref: Ref, mode: int, g: Game) {
    ref.mode == mode && (SameText(g.startup, ref.startup) || SameText(g.title, ref.title))
  }

  /** The first reference to the game from `i` on, or the length of the table. */
  function Find(refs: seq<Ref>, mode: int, g: Game, i: nat): (r: nat)
    requires i <= |refs|
    ensures i <= r <= |refs| && (r < |refs| ==> Matches(refs[r], mode, g))
    ensures forall q :: i <= q < r ==> !Matches(refs[q], mode, g)
    decreases |refs| - i
  {
    if i == |refs| || Matches(refs[i], mode, g) then i else Find(refs, mode, g, i + 1)
  }

  function Updated(ref: Ref, mode: int, id: int, g: Game): Ref {
    Ref(mode, id,
        if g.startup.Some? then Clip(g.startup.value, STARTUP_MAX) else ref.startup,
        if g.title.Some? then Clip(g.title.value, TITLE_MAX) else ref.title)
  }

  /** `oplMakeGameItemId` for row `id`, which holds `g`: the table afterwards and the index, if any. */
  function Make(refs: seq<Ref>, mode: int, id: int, g: Game): (seq<Ref>, Option<nat>) {
    var r := Find(refs, mode, g, 0);
    if r < |refs| then (refs[r := Updated(refs[r], mode, id, g)], Some(r))
    else if |refs| > INDEX_MASK then (refs, None)
    else (refs + [Updated(BLANK, mode, id, g)], Some(r))
  }

  /** The row of a list that a reference stands for, by startup or title. */
  predicate Denotes(ref: Ref, g: Game) {
    SameText(g.startup, ref.startup) || SameText(g.title, ref.title)
  }

  function FindRow(rows: seq<Game>, ref: Ref, i: nat): (r: nat)
    requires i <= |rows|
    ensures i <= r <= |rows| && (r < |rows| ==> Denotes(ref, rows[r]))
    ensures forall q :: i <= q < r ==> !Denotes(ref, rows[q])
    decreases |rows| - i
  {
    if i == |rows| || Denotes(ref, rows[i]) then i else FindRow(rows, ref, i + 1)
  }

  /** The remembered row if it still fits, else the first that does. */
  function RowOf(rows: seq<Game>, ref: Ref): (r: nat)
    ensures r <= |rows| && (r < |rows| ==> Denotes(ref, rows[r]))
    ensures r == |rows| ==> forall q :: 0 <= q < |rows| ==> !Denotes(ref, rows[q])
  {
    if 0 <= ref.sourceId < |rows| && Denotes(ref, rows[ref.sourceId]) then ref.sourceId else FindRow(rows, ref, 0)
  }

  function Renewed(ref: Ref, row: int, g: Game): Ref {
    ref.(sourceId := row,
         startup := if g.startup.Some? && g.startup.value != "" then Clip(g.startup.value, STARTUP_MAX)
           else ref.startup)
  }

  predicate Alive(sources: Sources, mode: int) {
    0 <= mode < |sources| && sources[mode].Some? && sources[mode].value.enabled
  }

  /** `oplResolveGameItem` for an encoded item: the table afterwards and the row, if any. */
  function Resolve(refs: seq<Ref>, sources: Sources, index: nat): (seq<Ref>, Option<nat>) {
    if index >= |refs| || !Alive(sources, refs[index].mode) then (refs, None)
    else
      var rows := sources[refs[index].mode].value.rows;
      var row := RowOf(rows, refs[index]);
      if row == |rows| then (refs, None) else (refs[index := Renewed(refs[index], row, rows[row])], Some(row))
  }

  // ---- what one call does ----

  /** The game has the startup or the title that the reference stores; empty texts do not count. */
  predicate SharesText(ref: Ref, g: Game) {
    || (ref.startup != "" && g.startup == Some(ref.startup))
    || (ref.title != "" && g.title == Some(ref.title))
  }

  predicate SharesIn(refs: seq<Ref>, k: nat, mode: int, g: Game) {
    k < |refs| && refs[k].mode == mode && SharesText(refs[k], g)
  }

  /** `k` is the first reference of that mode that shares a text with the game. */
  predicate FirstShare(refs: seq<Ref>, k: nat, mode: int, g: Game) {
    SharesIn(refs, k, mode, g) && forall q: nat :: q < k ==> !SharesIn(refs, q, mode, g)
  }

  predicate NoShare(refs: seq<Ref>, mode: int, g: Game) {
    forall k: nat :: k < |refs| ==> !SharesIn(refs, k, mode, g)
  }

  lemma {:induction false} FindIsFirstShare(refs: seq<Ref>, mode: int, g: Game)
    ensures var r := Find(refs, mode, g, 0);
      if r < |refs| then FirstShare(refs, r, mode, g) else NoShare(refs, mode, g)
  {
    assert forall k: nat :: k < |refs| ==> (Matches(refs[k], mode, g) <==> SharesIn(refs, k, mode, g));
  }

  /**
    A game is given the first reference of its mode that shares a text with it, else a new one behind all others,
    and none exactly when no reference shares a text and the table is full.
   */
  lemma {:induction false} MakeExactly(refs: seq<Ref>, mode: int, id: int, g: Game)
    ensures match Make(refs, mode, id, g).1
      case None => NoShare(refs, mode, g) && |refs| >= 0x4000_0000
      case Some(r) => FirstShare(refs, r, mode, g) || (NoShare(refs, mode, g) && r == |refs| < 0x4000_0000)
  {
    FindIsFirstShare(refs, mode, g);
  }

  /**
    The reference then holds the mode, the row and the texts of the game, cut to 11 and 127 characters; a missing
    text leaves what was there. No other reference changes.
   */
  lemma {:induction false} MakeStores(refs: seq<Ref>, mode: int, id: int, g: Game)
    ensures var (refs', r) := Make(refs, mode, id, g);
      match r
      case None => refs' == refs
      case Some(r) =>
        && r < |refs'| && refs'[r].mode == mode && refs'[r].sourceId == id
        && (if r < |refs| then refs' == refs[r := refs'[r]] else refs' == refs + [refs'[r]])
        && Holds(refs'[r].startup, g.startup, 11, if r < |refs| then refs[r].startup else "")
        && Holds(refs'[r].title, g.title, 127, if r < |refs| then refs[r].title else "")
  {
  }

  /** A text of at most `max` characters as it was given, or what was there before. */
  predicate Holds(stored: string, text: Option<string>, max: nat, before: string) {
    match text
    case None => stored == before
    case Some(t) => stored <= t && |stored| == if |t| <= max then |t| else max
  }

  /**
    A reference resolves if and only if its list is there and enabled and some row shares a text with it: to the row
    it remembers if that is one, else to the first. It then remembers that row, and its startup.
   */
  lemma {:induction false} ResolveExactly(refs: seq<Ref>, sources: Sources, index: nat)
    requires index < |refs| && Alive(sources, refs[index].mode)
    ensures var ref, rows := refs[index], sources[refs[index].mode].value.rows;
      var (refs', row) := Resolve(refs, sources, index);
      && (row.None? <==> forall q :: 0 <= q < |rows| ==> !SharesText(ref, rows[q])) && (row.None? ==> refs' == refs)
      && (row.Some? ==>
            && row.value < |rows| && SharesText(ref, rows[row.value])
            && (row.value != ref.sourceId ==>
                  && !(0 <= ref.sourceId < |rows| && SharesText(ref, rows[ref.sourceId]))
                  && forall q :: 0 <= q < row.value ==> !SharesText(ref, rows[q]))
            && |refs'| == |refs| && (forall k :: 0 <= k < |refs| && k != index ==> refs'[k] == refs[k])
            && refs'[index].sourceId == row.value && refs'[index].mode == ref.mode && refs'[index].title == ref.title
            && Holds(refs'[index].startup,
                 if rows[row.value].startup == Some("") then None else rows[row.value].startup, 11, ref.startup))
  {
    var ref, rows := refs[index], sources[refs[index].mode].value.rows;
    assert forall q :: 0 <= q < |rows| ==> (Denotes(ref, rows[q]) <==> SharesText(ref, rows[q]));
  }

  // ---- handles that last ----

  /** The game has both texts, and they are stored unclipped. */
  predicate Named(g: Game) {
    && g.startup.Some? && 0 < |g.startup.value| <= STARTUP_MAX
    && g.title.Some? && 0 < |g.title.value| <= TITLE_MAX
  }

  predicate Distinct(g: Game, h: Game) {
    g.startup != h.startup && g.title != h.title
  }

  /** `r` is the handle of the game: the first reference that matches it, and holding its own texts. */
  predicate Handle(refs: seq<Ref>, mode: int, g: Game, r: nat) {
    && r < |refs| && refs[r].mode == mode && Some(refs[r].startup) == g.startup && Some(refs[r].title) == g.title
    && forall q :: 0 <= q < r ==> !Matches(refs[q], mode, g)
  }

  /** A row is this game, or shares neither text with it. */
  predicate Clean(rows: seq<Game>, g: Game) {
    forall i :: 0 <= i < |rows| ==> rows[i] == g || (Named(rows[i]) && Distinct(rows[i], g))
  }

  lemma {:induction false} MadeIsHandle(refs: seq<Ref>, mode: int, id: int, g: Game)
    requires Named(g)
    ensures var (refs', r) := Make(refs, mode, id, g);
      && (r.None? <==> |refs| > INDEX_MASK && Find(refs, mode, g, 0) == |refs|)
      && (r.Some? ==> Handle(refs', mode, g, r.value) && refs'[r.value].sourceId == id)
  {
  }

  /** Another game, in another mode or with other texts, does not get or disturb this game's handle. */
  lemma {:induction false} MakeKeepsHandle(refs: seq<Ref>, mode: int, g: Game, r: nat, m: int, id: int, h: Game)
    requires Named(g) && Named(h) && Handle(refs, mode, g, r) && (m != mode || Distinct(h, g))
    ensures var (refs', x) := Make(refs, m, id, h);
      Handle(refs', mode, g, r) && refs'[r] == refs[r] && x != Some(r) && |refs| <= |refs'|
  {
    assert !Matches(refs[r], m, h);
  }

  /** The game itself gets the same handle again, now for its new row. */
  lemma {:induction false} MakeFindsHandle(refs: seq<Ref>, mode: int, g: Game, r: nat, id: int)
    requires Named(g) && Handle(refs, mode, g, r)
    ensures var (refs', x) := Make(refs, mode, id, g);
      x == Some(r) && |refs'| == |refs| && Handle(refs', mode, g, r)
        && refs'[r] == Ref(mode, id, g.startup.value, g.title.value)
  {
    assert Matches(refs[r], mode, g);
  }

  /** A handle resolves to its own game's row wherever that is now, and to nothing when the game is gone. */
  lemma {:induction false} HandleResolves(refs: seq<Ref>, sources: Sources, mode: int, g: Game, r: nat)
    requires Named(g) && Handle(refs, mode, g, r) && Alive(sources, mode) && Clean(sources[mode].value.rows, g)
    ensures var rows, row := sources[mode].value.rows, Resolve(refs, sources, r).1;
      if g in rows then row.Some? && row.value < |rows| && rows[row.value] == g else row.None?
  {
    var rows := sources[mode].value.rows;
    var row := RowOf(rows, refs[r]);
    forall i | 0 <= i < |rows| ensures Denotes(refs[r], rows[i]) <==> rows[i] == g {
    }
  }

  /** Resolving any item keeps the game's handle. */
  lemma {:induction false} ResolveKeepsHandle(refs: seq<Ref>, sources: Sources, mode: int, g: Game, r: nat, x: nat)
    requires Named(g) && Handle(refs, mode, g, r)
    requires Alive(sources, mode) ==> Clean(sources[mode].value.rows, g)
    ensures Handle(Resolve(refs, sources, x).0, mode, g, r)
  {
    var (refs', row) := Resolve(refs, sources, x);
    if row.Some? && refs[x].mode == mode {
      var h := sources[mode].value.rows[row.value];
      assert Denotes(refs[x], h);
      if x == r {
        assert h == g;
      } else if x < r {
        assert !Matches(refs[x], mode, g);
        assert h != g;
      }
    }
  }

  // ---- whole runs ----

  datatype Op = Enter(mode: int, id: int, game: Game) | Lookup(sources: Sources, index: nat)

  function Apply(refs: seq<Ref>, op: Op): seq<Ref> {
    match op
    case Enter(mode, id, g) => Make(refs, mode, id, g).0
    case Lookup(sources, x) => Resolve(refs, sources, x).0
  }

  function Run(refs: seq<Ref>, ops: seq<Op>): seq<Ref> {
    if ops == [] then refs else Apply(Run(refs, ops[..|ops| - 1]), ops[|ops| - 1])
  }

  /** The operation meets this game only as itself: every other game of its mode differs in both texts. */
  predicate Knows(op: Op, mode: int, g: Game) {
    match op
    case Enter(m, _, h) => Named(h) && (m != mode || h == g || Distinct(h, g))
    case Lookup(sources, _) => Alive(sources, mode) ==> Clean(sources[mode].value.rows, g)
  }

  /**
    A handle lasts: through any number of rebuilds, reorderings and lookups the game is given the same handle, and
    the handle finds the game.
   */
  lemma {:induction false} HandleLasts(refs: seq<Ref>, ops: seq<Op>, mode: int, g: Game, r: nat)
    requires Named(g) && Handle(refs, mode, g, r)
    requires forall i :: 0 <= i < |ops| ==> Knows(ops[i], mode, g)
    ensures Handle(Run(refs, ops), mode, g, r)
    ensures forall id :: Make(Run(refs, ops), mode, id, g).1 == Some(r)
  {
    if ops != [] {
      var init, op := ops[..|ops| - 1], ops[|ops| - 1];
      HandleLasts(refs, init, mode, g, r);
      var now := Run(refs, init);
      match op
      case Enter(m, id, h) =>
        if m == mode && h == g {
          MakeFindsHandle(now, mode, g, r, id);
        } else {
          MakeKeepsHandle(now, mode, g, r, m, id, h);
        }
      case Lookup(sources, x) => ResolveKeepsHandle(now, sources, mode, g, r, x);
    }
    forall id ensures Make(Run(refs, ops), mode, id, g).1 == Some(r) {
      MakeFindsHandle(Run(refs, ops), mode, g, r, id);
    }
  }

  // ---- one merge pass ----

  /** A row to be entered. */
  datatype Job = Job(mode: int, row: nat, game: Game)

  function Pass(refs: seq<Ref>, jobs: seq<Job>): (seq<Ref>, seq<Option<nat>>) {
    if jobs == [] then (refs, [])
    else
      var (refs', ids) := Pass(refs, jobs[..|jobs| - 1]);
      var j := jobs[|jobs| - 1];
      var (refs'', id) := Make(refs', j.mode, j.row, j.game);
      (refs'', ids + [id])
  }

  predicate Separate(jobs: seq<Job>) {
    && (forall i :: 0 <= i < |jobs| ==> Named(jobs[i].game))
    && (forall i, k :: 0 <= i < k < |jobs| && jobs[i].mode == jobs[k].mode ==> Distinct(jobs[k].game, jobs[i].game))
  }

  /** Job `i` has its own reference. */
  predicate Entered(refs: seq<Ref>, j: Job, r: nat) {
    Handle(refs, j.mode, j.game, r) && refs[r].sourceId == j.row
  }

  /**
    One pass over lists whose games differ within each mode, from any table whatever: different games get different
    handles, each for its own row, and a game is passed over only when the table is full.
   */
  lemma {:induction false} PassIsFaithful(refs: seq<Ref>, jobs: seq<Job>)
    requires Separate(jobs)
    ensures var (refs', ids) := Pass(refs, jobs);
      && |ids| == |jobs| && |refs| <= |refs'| <= |refs| + |jobs|
      && (forall i :: 0 <= i < |ids| && ids[i].Some? ==> Entered(refs', jobs[i], ids[i].value))
      && (forall i :: 0 <= i < |ids| && ids[i].None? ==> |refs'| > INDEX_MASK)
      && (forall i, k :: 0 <= i < k < |ids| && ids[i].Some? ==> ids[i] != ids[k])
  {
    if jobs != [] {
      var init, j := jobs[..|jobs| - 1], jobs[|jobs| - 1];
      PassIsFaithful(refs, init);
      var (now, ids) := Pass(refs, init);
      MadeIsHandle(now, j.mode, j.row, j.game);
      var (refs', id) := Make(now, j.mode, j.row, j.game);
      forall i | 0 <= i < |ids| && ids[i].Some?
        ensures Entered(refs', jobs[i], ids[i].value) && ids[i] != id
      {
        assert init[i] == jobs[i];
        MakeKeepsHandle(now, jobs[i].mode, jobs[i].game, ids[i].value, j.mode, j.row, j.game);
      }
    }
  }

  /** The rows of one list from `i` on. */
  function RowJobs(mode: int, rows: seq<Game>, n: nat): seq<Job>
    requires n <= |rows|
  {
    seq(n, i requires 0 <= i < n => Job(mode, i, rows[i]))
  }

  lemma RowJobsStep(done: seq<Job>, mode: int, rows: seq<Game>, i: nat)
    requires i < |rows|
    ensures done + RowJobs(mode, rows, i + 1) == done + RowJobs(mode, rows, i) + [Job(mode, i, rows[i])]
  {
  }

  function ModeJobs(sources: Sources, mode: nat): seq<Job>
    requires mode < |sources|
  {
    if Alive(sources, mode) && sources[mode].value.merged
      then RowJobs(mode, sources[mode].value.rows, |sources[mode].value.rows|)
    else []
  }

  /** All rows of the first `m` lists that take part in the merged list, in order. */
  function Jobs(sources: Sources, m: nat): seq<Job>
    requires m <= |sources|
  {
    if m == 0 then [] else Jobs(sources, m - 1) + ModeJobs(sources, m - 1)
  }

  lemma JobsStep(sources: Sources, m: nat)
    requires m < |sources|
    ensures Jobs(sources, m + 1) == Jobs(sources, m) + ModeJobs(sources, m)
    ensures ModeJobs(sources, m) == [] ==> Jobs(sources, m + 1) == Jobs(sources, m)
  {
  }

  /** Within each list, the games have both texts and share none. */
  predicate CleanSources(sources: Sources) {
    forall m :: 0 <= m < |sources| && Alive(sources, m) ==> CleanList(sources[m].value.rows)
  }

  predicate CleanList(rows: seq<Game>) {
    && (forall i :: 0 <= i < |rows| ==> Named(rows[i]))
    && (forall i, k :: 0 <= i < k < |rows| ==> Distinct(rows[k], rows[i]))
  }

  lemma {:induction false} JobsAreSeparate(sources: Sources, m: nat)
    requires m <= |sources| && CleanSources(sources)
    ensures Separate(Jobs(sources, m))
    ensures forall i :: 0 <= i < |Jobs(sources, m)| ==>
      JobOf(sources, Jobs(sources, m)[i]) && Jobs(sources, m)[i].mode < m
  {
    if m > 0 {
      JobsAreSeparate(sources, m - 1);
      ModeJobsAreSeparate(sources, m - 1);
      SeparateConcat(Jobs(sources, m - 1), ModeJobs(sources, m - 1), m - 1);
    }
  }

  lemma {:induction false} SeparateConcat(a: seq<Job>, b: seq<Job>, m: nat)
    requires Separate(a) && Separate(b)
    requires (forall i :: 0 <= i < |a| ==> a[i].mode < m) && (forall i :: 0 <= i < |b| ==> b[i].mode == m)
    ensures Separate(a + b)
  {
    var c := a + b;
    forall i, k | 0 <= i < k < |c| && c[i].mode == c[k].mode ensures Distinct(c[k].game, c[i].game) {
      if i >= |a| {
        assert c[i] == b[i - |a|] && c[k] == b[k - |a|];
      }
    }
  }

  lemma {:induction false} ModeJobsAreSeparate(sources: Sources, m: nat)
    requires m < |sources| && CleanSources(sources)
    ensures Separate(ModeJobs(sources, m))
    ensures forall i :: 0 <= i < |ModeJobs(sources, m)| ==>
      JobOf(sources, ModeJobs(sources, m)[i]) && ModeJobs(sources, m)[i].mode == m
  {
    assert Alive(sources, m) ==> CleanList(sources[m].value.rows);
  }

  /** The job is a row of its list. */
  predicate JobOf(sources: Sources, j: Job) {
    && Alive(sources, j.mode)
    && j.row < |sources[j.mode].value.rows| && sources[j.mode].value.rows[j.row] == j.game
  }

  lemma {:induction false} CleanForEach(rows: seq<Game>, k: nat)
    requires k < |rows| && CleanList(rows)
    ensures Clean(rows, rows[k])
  {
  }

  /**
    The merged list: each of its handles resolves to its own row; and after the lists have changed, as long as the
    new list of its mode is clean and names this game only as itself, to the row the game has now.
   */
  lemma {:induction false} MergedHandlesResolve(refs: seq<Ref>, sources: Sources, later: Sources, i: nat)
    requires CleanSources(sources) && i < |Jobs(sources, |sources|)|
    requires var j := Jobs(sources, |sources|)[i]; Alive(later, j.mode) && Clean(later[j.mode].value.rows, j.game)
    ensures var (refs', ids) := Pass(refs, Jobs(sources, |sources|));
      |ids| == |Jobs(sources, |sources|)| && (ids[i].Some? ==>
        var j := Jobs(sources, |sources|)[i];
        var rows, row := later[j.mode].value.rows, Resolve(refs', later, ids[i].value).1;
        && Resolve(refs', sources, ids[i].value).1 == Some(j.row)
        && (j.game in rows <==> row.Some?)
        && (row.Some? ==> row.value < |rows| && rows[row.value] == j.game))
  {
    var jobs := Jobs(sources, |sources|);
    JobsAreSeparate(sources, |sources|);
    PassIsFaithful(refs, jobs);
    var (refs', ids) := Pass(refs, jobs);
    if ids[i].Some? {
      var j := jobs[i];
      assert Entered(refs', j, ids[i].value) && JobOf(sources, j);
      OwnRowResolves(refs', sources, j, ids[i].value);
      HandleResolves(refs', later, j.mode, j.game, ids[i].value);
    }
  }

  /** No game is in a clean list twice. */
  lemma {:induction false} CleanListHasNoDoubles(rows: seq<Game>, g: Game)
    requires CleanList(rows)
    ensures multiset(rows)[g] <= 1
  {
    if rows != [] {
      var init, last := rows[..|rows| - 1], rows[|rows| - 1];
      CleanListHasNoDoubles(init, g);
      assert rows == init + [last];
      forall i | 0 <= i < |init| ensures init[i] != last {
        assert Distinct(rows[|rows| - 1], rows[i]);
      }
    }
  }

  /** Two places with the same game make it count twice. */
  lemma TwiceThere(rows: seq<Game>, i: nat, k: nat)
    requires i < k < |rows| && rows[i] == rows[k]
    ensures multiset(rows)[rows[i]] >= 2
  {
    assert rows == rows[..k] + rows[k..];
    assert rows[..k][i] in rows[..k] && rows[k..][0] in rows[k..];
  }

  /** A clean list stays clean when it is reordered. */
  lemma {:induction false} ReorderedIsClean(rows: seq<Game>, rows': seq<Game>)
    requires CleanList(rows) && multiset(rows') == multiset(rows)
    ensures CleanList(rows')
  {
    forall i | 0 <= i < |rows'| ensures rows'[i] in rows {
      assert rows'[i] in multiset(rows');
    }
    forall i, k | 0 <= i < k < |rows'| ensures Distinct(rows'[k], rows'[i]) {
      var a :| 0 <= a < |rows| && rows[a] == rows'[i];
      var b :| 0 <= b < |rows| && rows[b] == rows'[k];
      if a == b {
        TwiceThere(rows', i, k);
        CleanListHasNoDoubles(rows, rows[a]);
      } else {
        assert if a < b then Distinct(rows[b], rows[a]) else Distinct(rows[a], rows[b]);
      }
    }
  }

  /** The lists of `later` are those of `sources`, each in some other order. */
  predicate Reordered(sources: Sources, later: Sources) {
    |later| == |sources| && forall m :: 0 <= m < |sources| && Alive(sources, m) ==>
      Alive(later, m) && multiset(later[m].value.rows) == multiset(sources[m].value.rows)
  }

  /** However the lists of a merged list are reordered later, each handle resolves to the row its game has then. */
  lemma {:induction false} ReorderedHandlesResolve(refs: seq<Ref>, sources: Sources, later: Sources, i: nat)
    requires CleanSources(sources) && Reordered(sources, later) && i < |Jobs(sources, |sources|)|
    ensures var (refs', ids) := Pass(refs, Jobs(sources, |sources|));
      |ids| == |Jobs(sources, |sources|)| && (ids[i].Some? ==>
        var j := Jobs(sources, |sources|)[i];
        && Alive(later, j.mode)
        && var rows, row := later[j.mode].value.rows, Resolve(refs', later, ids[i].value).1;
           row.Some? && row.value < |rows| && rows[row.value] == j.game)
  {
    var j := Jobs(sources, |sources|)[i];
    JobsAreSeparate(sources, |sources|);
    assert JobOf(sources, j);
    var rows, rows' := sources[j.mode].value.rows, later[j.mode].value.rows;
    ReorderedIsClean(rows, rows');
    assert j.game in multiset(rows');
    var k :| 0 <= k < |rows'| && rows'[k] == j.game;
    CleanForEach(rows', k);
    MergedHandlesResolve(refs, sources, later, i);
  }

  lemma {:induction false} OwnRowResolves(refs: seq<Ref>, sources: Sources, j: Job, r: nat)
    requires Named(j.game) && Entered(refs, j, r) && JobOf(sources, j)
    ensures Resolve(refs, sources, r).1 == Some(j.row)
  {
  }

  // ---- the table ----

  /** Bit 30 of a 32-bit item id, and the bits below it. */
  predicate Encoded(itemId: int) {
    (itemId / 0x4000_0000) % 2 == 1
  }

  function IndexOf(itemId: int): nat {
    itemId % 0x4000_0000
  }

  function IdOf(index: Option<nat>): int {
    if index.None? then -1 else FLAG + index.value
  }

  /** An id gives back its index. */
  lemma IdRoundTrip(index: nat)
    requires index <= INDEX_MASK
    ensures IdOf(Some(index)) >= 0 && Encoded(IdOf(Some(index))) && IndexOf(IdOf(Some(index))) == index
  {
  }

  class RefTable {
    var refs: array<Ref>
    var count: nat

    ghost predicate Valid()
      reads this
    {
      count <= refs.Length
    }

    ghost function Contents(): seq<Ref>
      requires Valid()
      reads this, refs
    {
      refs[..count]
    }

    constructor ()
      ensures Valid() && Contents() == [] && fresh(refs)
    {
      refs, count := new Ref[0], 0;
    }

    /** Doubles the table when it is full. */
    method EnsureCapacity()
      requires Valid()
      modifies this`refs
      ensures Valid() && count < refs.Length && Contents() == old(Contents())
      ensures refs == old(refs) || fresh(refs)
    {
      if count < refs.Length {
        return;
      }
      var grown := new Ref[if refs.Length > 0 then refs.Length * 2 else 64](_ => BLANK);
      forall i | 0 <= i < count {
        grown[i] := refs[i];
      }
      refs := grown;
    }

    method MakeId(sources: Sources, mode: int, id: int) returns (itemId: int)
      requires Valid()
      requires 0 <= mode < |sources| && sources[mode].Some? ==> id < |sources[mode].value.rows|
      modifies this, refs
      ensures Valid() && (refs == old(refs) || fresh(refs))
      ensures if 0 <= mode < |sources| && id >= 0 && sources[mode].Some?
        then var made := Make(old(Contents()), mode, id, sources[mode].value.rows[id]);
             Contents() == made.0 && itemId == IdOf(made.1)
        else Contents() == old(Contents()) && itemId == -1
    {
      if mode < 0 || mode >= |sources| || id < 0 || sources[mode].None? {
        return -1;
      }
      var g := sources[mode].value.rows[id];
      ghost var was := Contents();
      var index := 0;
      while index < count && !Matches(refs[index], mode, g)
        invariant 0 <= index <= count && Find(was, mode, g, 0) == Find(was, mode, g, index)
      {
        index := index + 1;
      }
      assert index == Find(was, mode, g, 0);
      if index == count {
        if count > INDEX_MASK {
          return -1;
        }
        EnsureCapacity();
        refs[count] := BLANK;
        count := count + 1;
        assert Contents() == was + [BLANK];
      }
      refs[index] := Updated(refs[index], mode, id, g);
      assert Contents() == Make(was, mode, id, g).0;
      itemId := FLAG + index;
    }

    /** `oplResolveGameItem`: the source's mode and the row. A plain id is a row of the fallback list. */
    method ResolveItem(sources: Sources, itemId: int, fallback: Option<int>) returns (r: Option<(int, int)>)
      requires Valid()
      modifies refs
      ensures Valid()
      ensures if Encoded(itemId)
        then var index, (after, row) := IndexOf(itemId), Resolve(old(Contents()), sources, IndexOf(itemId));
             && Contents() == after
             && (if row.None? then r.None?
               else index < old(count) && r == Some((old(Contents())[index].mode, row.value)))
        else Contents() == old(Contents()) && r == if fallback.None? then None else Some((fallback.value, itemId))
    {
      if !Encoded(itemId) {
        return if fallback.None? then None else Some((fallback.value, itemId));
      }
      var row := FindGame(sources, IndexOf(itemId));
      r := if row.None? then None else Some((refs[IndexOf(itemId)].mode, row.value));
    }

    method FindGame(sources: Sources, index: nat) returns (row: Option<nat>)
      requires Valid()
      modifies refs
      ensures Valid() && (Contents(), row) == Resolve(old(Contents()), sources, index)
      ensures row.Some? ==> index < count && refs[index].mode == old(refs[index].mode)
    {
      if index >= count || !Alive(sources, refs[index].mode) {
        return None;
      }
      ghost var was := Contents();
      var ref, rows := refs[index], sources[refs[index].mode].value.rows;
      if 0 <= ref.sourceId < |rows| && Denotes(ref, rows[ref.sourceId]) {
        refs[index] := Renewed(ref, ref.sourceId, rows[ref.sourceId]);
        assert Contents() == was[index := refs[index]];
        return Some(ref.sourceId);
      }
      var i := 0;
      while i < |rows|
        invariant 0 <= i <= |rows| && FindRow(rows, ref, 0) == FindRow(rows, ref, i)
      {
        if Denotes(ref, rows[i]) {
          refs[index] := Renewed(ref, i, rows[i]);
          assert Contents() == was[index := refs[index]];
          return Some(i);
        }
        i := i + 1;
      }
      row := None;
    }

    /** One list of the merge loop; `done` are the rows already entered. */
    method MergeMode(mode: nat, sources: Sources, ids: seq<int>, ghost start: seq<Ref>, ghost done: seq<Job>)
        returns (ids': seq<int>)
      requires Valid() && mode < |sources| && Alive(sources, mode) && Merged(start, done, Contents(), ids)
      modifies this, refs
      ensures Valid() && (refs == old(refs) || fresh(refs))
      ensures Merged(start, done + RowJobs(mode, sources[mode].value.rows, |sources[mode].value.rows|), Contents(),
        ids')
    {
      var n := |sources[mode].value.rows|;
      var i := 0;
      ids' := ids;
      ghost var rows := sources[mode].value.rows;
      ghost var now := done;
      assert done + RowJobs(mode, rows, 0) == done;
      while i < n
        invariant 0 <= i <= n && Valid() && (refs == old(refs) || fresh(refs))
        invariant now == done + RowJobs(mode, rows, i)
        invariant Merged(start, now, Contents(), ids')
      {
        MergedStep(start, now, Contents(), ids', Job(mode, i, rows[i]));
        var itemId := MakeId(sources, mode, i);
        if itemId >= 0 {
          ids' := ids' + [itemId];
        }
        now := now + [Job(mode, i, rows[i])];
        RowJobsStep(done, mode, rows, i);
        i := i + 1;
      }
    }

    /** The merge loop of `updateMenuFromGameList`: the ids of the entries appended to the menu. */
    method Merge(sources: Sources) returns (ids: seq<int>)
      requires Valid()
      modifies this, refs
      ensures Valid()
      ensures Merged(old(Contents()), Jobs(sources, |sources|), Contents(), ids)
    {
      ghost var start, done := Contents(), [];
      var mode := 0;
      ids := [];
      while mode < |sources|
        invariant 0 <= mode <= |sources| && Valid() && (refs == old(refs) || fresh(refs))
        invariant done == Jobs(sources, mode)
        invariant Merged(start, done, Contents(), ids)
      {
        JobsStep(sources, mode);
        if Alive(sources, mode) && sources[mode].value.merged {
          ids := MergeMode(mode, sources, ids, start, done);
          done := done + RowJobs(mode, sources[mode].value.rows, |sources[mode].value.rows|);
        }
        mode := mode + 1;
      }
    }
  }

  /** The table after entering the rows, and the ids handed out for them. */
  ghost predicate Merged(start: seq<Ref>, jobs: seq<Job>, refs: seq<Ref>, ids: seq<int>) {
    refs == Pass(start, jobs).0 && ids == Shown(Pass(start, jobs).1)
  }

  /** The ids of the games that were not refused. */
  function Shown(ids: seq<Option<nat>>): seq<int> {
    if ids == [] then []
    else
      var id := IdOf(ids[|ids| - 1]);
      Shown(ids[..|ids| - 1]) + if id >= 0 then [id] else []
  }

  // ---- what the merged list shows ----

  /** The row belongs to a list that is enabled and takes part in the merged list. */
  predicate Listed(sources: Sources, mode: int, row: nat) {
    && 0 <= mode < |sources| && sources[mode].Some? && sources[mode].value.enabled && sources[mode].value.merged
    && row < |sources[mode].value.rows|
  }

  /** The jobs are exactly the listed rows, ordered by mode and row. */
  lemma {:induction false} JobsAreListed(sources: Sources, m: nat)
    requires m <= |sources|
    ensures forall i :: 0 <= i < |Jobs(sources, m)| ==>
      var j := Jobs(sources, m)[i];
      j.mode < m && Listed(sources, j.mode, j.row) && j.game == sources[j.mode].value.rows[j.row]
    ensures forall i, k :: 0 <= i < k < |Jobs(sources, m)| ==> Before(Jobs(sources, m)[i], Jobs(sources, m)[k])
  {
    if m > 0 {
      JobsAreListed(sources, m - 1);
    }
  }

  predicate Before(a: Job, b: Job) {
    a.mode < b.mode || (a.mode == b.mode && a.row < b.row)
  }

  lemma {:induction false} ListedIsJob(sources: Sources, m: nat, mode: int, row: nat) returns (i: nat)
    requires m <= |sources| && mode < m && Listed(sources, mode, row)
    ensures i < |Jobs(sources, m)| && Jobs(sources, m)[i] == Job(mode, row, sources[mode].value.rows[row])
  {
    if mode == m - 1 {
      i := |Jobs(sources, m - 1)| + row;
    } else {
      i := ListedIsJob(sources, m - 1, mode, row);
    }
  }

  lemma {:induction false} ShownIs(ids: seq<Option<nat>>)
    requires forall i :: 0 <= i < |ids| ==> ids[i].Some?
    ensures |Shown(ids)| == |ids| && forall i :: 0 <= i < |ids| ==> Shown(ids)[i] == 0x4000_0000 + ids[i].value
  {
    if ids != [] {
      ShownIs(ids[..|ids| - 1]);
    }
  }

  /** Item `itemId` leads to that row of that list. */
  predicate LeadsTo(refs: seq<Ref>, sources: Sources, itemId: int, mode: int, row: nat) {
    && Encoded(itemId) && IndexOf(itemId) < |refs| && refs[IndexOf(itemId)].mode == mode
    && Resolve(refs, sources, IndexOf(itemId)).1 == Some(row)
  }

  /** Every job has its own reference. */
  predicate AllEntered(refs: seq<Ref>, jobs: seq<Job>, ids: seq<Option<nat>>) {
    && |ids| == |jobs| && |refs| <= INDEX_MASK
    && forall i :: 0 <= i < |jobs| ==>
         Named(jobs[i].game) && ids[i].Some? && Entered(refs, jobs[i], ids[i].value)
  }

  /** As long as the table has room, no row is passed over. */
  lemma {:induction false} NoneIsPassedOver(refs: seq<Ref>, jobs: seq<Job>)
    requires Separate(jobs) && |refs| + |jobs| <= INDEX_MASK
    ensures AllEntered(Pass(refs, jobs).0, jobs, Pass(refs, jobs).1)
  {
    PassIsFaithful(refs, jobs);
  }

  lemma EnteredLeads(refs: seq<Ref>, sources: Sources, j: Job, r: nat)
    requires Named(j.game) && Entered(refs, j, r) && JobOf(sources, j) && r <= INDEX_MASK
    ensures LeadsTo(refs, sources, 0x4000_0000 + r, j.mode, j.row)
  {
    OwnRowResolves(refs, sources, j, r);
    IdRoundTrip(r);
  }

  predicate AllJobsOf(sources: Sources, jobs: seq<Job>) {
    forall i :: 0 <= i < |jobs| ==> JobOf(sources, jobs[i])
  }

  /** One item is shown for each job, and leads to its row. */
  predicate AllLead(refs: seq<Ref>, sources: Sources, jobs: seq<Job>, shown: seq<int>) {
    && |shown| == |jobs|
    && forall i :: 0 <= i < |jobs| ==> LeadsTo(refs, sources, shown[i], jobs[i].mode, jobs[i].row)
  }

  lemma {:induction false} ShownLeads(refs: seq<Ref>, sources: Sources, jobs: seq<Job>, ids: seq<Option<nat>>)
    requires AllEntered(refs, jobs, ids) && AllJobsOf(sources, jobs)
    ensures AllLead(refs, sources, jobs, Shown(ids))
  {
    ShownIs(ids);
    var shown := Shown(ids);
    forall i | 0 <= i < |jobs| ensures LeadsTo(refs, sources, shown[i], jobs[i].mode, jobs[i].row) {
      EnteredLeads(refs, sources, jobs[i], ids[i].value);
    }
  }

  /** Some job is for that row. */
  predicate HasJob(jobs: seq<Job>, mode: int, row: nat) {
    exists i :: 0 <= i < |jobs| && jobs[i].mode == mode && jobs[i].row == row
  }

  lemma {:induction false} ListedHasJob(sources: Sources, mode: int, row: nat)
    ensures Listed(sources, mode, row) <==> HasJob(Jobs(sources, |sources|), mode, row)
  {
    JobsAreListed(sources, |sources|);
    if Listed(sources, mode, row) {
      var i := ListedIsJob(sources, |sources|, mode, row);
    }
  }

  /** Some item that is shown leads to that row. */
  predicate IsShown(refs: seq<Ref>, sources: Sources, shown: seq<int>, mode: int, row: nat) {
    exists i :: 0 <= i < |shown| && LeadsTo(refs, sources, shown[i], mode, row)
  }

  lemma {:induction false} JobIsShown(refs: seq<Ref>, sources: Sources, jobs: seq<Job>, shown: seq<int>, mode: int,
      row: nat)
    requires AllLead(refs, sources, jobs, shown)
    ensures HasJob(jobs, mode, row) <==> IsShown(refs, sources, shown, mode, row)
  {
    if i :| 0 <= i < |shown| && LeadsTo(refs, sources, shown[i], mode, row) {
      assert LeadsTo(refs, sources, shown[i], jobs[i].mode, jobs[i].row);
    }
  }

  /**
    As long as the table has room, the merged list shows every row of every enabled merged list, and nothing else:
    each item leads to a row of its own, in the order of the lists.
   */
  lemma {:induction false} EveryRowIsShown(refs: seq<Ref>, sources: Sources, mode: int, row: nat)
    requires CleanSources(sources) && |refs| + |Jobs(sources, |sources|)| <= INDEX_MASK
    ensures var jobs := Jobs(sources, |sources|);
      var (refs', ids) := Pass(refs, jobs);
      && (Listed(sources, mode, row) <==> IsShown(refs', sources, Shown(ids), mode, row))
      && AllLead(refs', sources, jobs, Shown(ids))
  {
    var jobs := Jobs(sources, |sources|);
    var (refs', ids) := Pass(refs, jobs);
    JobsAreSeparate(sources, |sources|);
    NoneIsPassedOver(refs, jobs);
    ShownLeads(refs', sources, jobs, ids);
    ListedHasJob(sources, mode, row);
    JobIsShown(refs', sources, jobs, Shown(ids), mode, row);
  }

  lemma {:induction false} MergedStep(start: seq<Ref>, jobs: seq<Job>, refs: seq<Ref>, ids: seq<int>, j: Job)
    requires Merged(start, jobs, refs, ids)
    ensures var made := Make(refs, j.mode, j.row, j.game);
      Merged(start, jobs + [j], made.0, if IdOf(made.1) >= 0 then ids + [IdOf(made.1)] else ids)
  {
    var made := Make(refs, j.mode, j.row, j.game);
    var shown := Pass(start, jobs).1;
    assert (jobs + [j])[..|jobs|] == jobs;
    assert (shown + [made.1])[..|shown|] == shown;
  }
}
