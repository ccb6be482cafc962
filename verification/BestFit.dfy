/** Which run an event belongs to and what it makes of it, told in instants, identities and
    rows (dashboard/native_history.py `_find_run`, `_project`). */
module BestFit {
  import opened Basics
  import opened Projection
  import opened ProjectionProofs

  // ---- who may bind -------------------------------------------------------------------

  /** The row is of the event's runner, provider, workflow run and attempt. */
  predicate OfExecution(n: Native, e: Event) {
    && n.base.runner == e.runner && n.base.provider == e.provider
    && n.base.run == (if e.runId.Some? then e.runId.value else "")
    && n.base.attempt == (if e.attempt.Some? && e.attempt.value != "" then e.attempt.value else "1")
  }

  function Identity(e: Event): string {
    if e.jobId.Some? then e.jobId.value else ""
  }

  function Title(e: Event): string {
    if e.job.Some? && e.job.value != "" then e.job.value else "job"
  }

  /** A hook's identity, as against a forge's. */
  predicate Hook(id: string) {
    |id| >= 5 && id[0] == 'h' && id[1] == 'o' && id[2] == 'o' && id[3] == 'k' && id[4] == ':'
  }

  /** The run of this row carries the event's identity. */
  predicate Carries(db: Db, n: Native, e: Event) {
    Identity(e) != "" && (n.history, Identity(e)) in db.ids
  }

  /** An event without a known identity may be of this row's run: no other identity of its
      kind is known there; it is not a start later than the last news of a run that has
      ended; and its job name is known there, or it has a workflow run and the run is
      open, or the event is signed or a finish, or an identity can be joined to another. */
  ghost predicate MayBind(db: Db, n: Native, e: Event) {
    && n.history < |db.runs|
    && (Identity(e) == "" || Carries(db, n, e)
        || forall id | (n.history, id) in db.ids :: Hook(id) != Hook(Identity(e)))
    && (e.state == Finished || db.runs[n.history].ended.None? || e.at <= n.at)
    && ((n.history, Title(e)) in db.names
        || (&& e.runId.Some? && e.runId.value != ""
            && (|| db.runs[n.history].ended.None? || e.source == Forge || e.state == Finished
                || (Identity(e) != "" && exists id :: (n.history, id) in db.ids))))
  }

  // ---- how its instant lies ---------------------------------------------------------------

  /** A start at the run's start, a finish at its end. */
  predicate AtEnd(run: Run, e: Event) {
    if e.state == Started then run.started == e.at else run.ended == Some(e.at)
  }

  /** Within the run; an open run has no end. */
  predicate Inside(run: Run, e: Event) {
    run.started <= e.at && (run.ended.Some? ==> e.at <= run.ended.value)
  }

  /** At most thirty seconds before the start, or after the end. */
  predicate Near(run: Run, e: Event) {
    if e.state == Started then e.at <= run.started <= e.at + 30_000_000
    else run.ended.Some? && run.ended.value <= e.at <= run.ended.value + 30_000_000
  }

  /** One of the twenty newest runs of the execution. */
  ghost predicate Recent(db: Db, n: Native, e: Event) {
    n in db.native && OfExecution(n, e) && |NewerThan(db, n, e)| < 20
  }

  function NewerThan(db: Db, n: Native, e: Event): set<nat> {
    set m | m in db.native && OfExecution(m, e) && m.history > n.history :: m.history
  }

  ghost predicate Plausible(db: Db, n: Native, e: Event) {
    Recent(db, n, e) && MayBind(db, n, e)
  }

  /** Alone in the first class that has any: at the matching end, inside, near. */
  ghost predicate BestAlone(db: Db, r: Native, e: Event) {
    && Plausible(db, r, e)
    && (|| (&& AtEnd(db.runs[r.history], e)
            && forall n | Plausible(db, n, e) && n != r :: !AtEnd(db.runs[n.history], e))
        || (&& Inside(db.runs[r.history], e)
            && (forall n | Plausible(db, n, e) :: !AtEnd(db.runs[n.history], e))
            && forall n | Plausible(db, n, e) && n != r :: !Inside(db.runs[n.history], e))
        || (&& Near(db.runs[r.history], e)
            && (forall n | Plausible(db, n, e) :: !AtEnd(db.runs[n.history], e) && !Inside(db.runs[n.history], e))
            && forall n | Plausible(db, n, e) && n != r :: !Near(db.runs[n.history], e)))
  }

  /** The newest run of the execution that carries the identity. */
  ghost predicate NewestCarrying(db: Db, r: Native, e: Event) {
    && r in db.native && OfExecution(r, e) && Carries(db, r, e)
    && forall n | n in db.native && OfExecution(n, e) && Carries(db, n, e) :: n.history <= r.history
  }

  // ---- the same as the selection ---------------------------------------------------------------

  lemma {:induction false} ExecutionIsBase(n: Native, e: Event)
    ensures OfExecution(n, e) <==> n.base == BaseOf(e)
    ensures Identity(e) == IdOf(e) && Title(e) == JobOf(e)
  {
  }

  lemma {:induction false} HookIsHook(id: string)
    ensures Hook(id) <==> IsHook(id)
  {
    if |id| >= 5 {
      assert id[..5] == [id[0], id[1], id[2], id[3], id[4]];
      assert "hook:" == ['h', 'o', 'o', 'k', ':'];
    }
  }

  lemma {:induction false} EligibleExactly(db: Db, n: Native, e: Event)
    ensures Eligible(db, n, e) <==> MayBind(db, n, e)
  {
    ExecutionIsBase(n, e);
    forall id ensures Hook(id) <==> IsHook(id) { HookIsHook(id); }
    hide Hook, IsHook;
    if pair :| pair in db.ids && pair.0 == n.history { assert (n.history, pair.1) in db.ids; }
    if id :| (n.history, id) in db.ids { assert (n.history, id) in db.ids; }
  }

  lemma {:induction false} FitExactly(db: Db, n: Native, e: Event)
    requires n.history < |db.runs|
    ensures
      var run, fit := db.runs[n.history], Fit(db, n, e);
      && (fit == 0 <==> AtEnd(run, e)) && (fit == 1 <==> !AtEnd(run, e) && Inside(run, e))
      && (fit == 2 <==> !AtEnd(run, e) && !Inside(run, e) && Near(run, e))
  {
  }

  ghost predicate Apart(rows: seq<Native>) {
    forall i, j | 0 <= i < j < |rows| :: rows[i].history != rows[j].history
  }

  lemma {:induction false} WithBaseApart(native: seq<Native>, base: Base)
    requires OneRowPerRun(native)
    ensures Apart(WithBase(native, base))
    decreases |native|
  {
    if native == [] {
    } else {
      WithBaseApart(native[1..], base);
      WithBaseElements(native[1..], base);
      var rest := WithBase(native[1..], base);
      forall i | 0 <= i < |rest| ensures rest[i].history != native[0].history {
        assert rest[i] in rest;
        var k :| 0 <= k < |native[1..]| && native[1..][k] == rest[i];
        assert native[k + 1] == rest[i];
      }
    }
  }

  lemma {:induction false} PlaceApart(row: Native, sorted: seq<Native>)
    requires Apart(sorted) && forall i | 0 <= i < |sorted| :: sorted[i].history != row.history
    ensures Apart(Place(row, sorted))
    decreases |sorted|
  {
    if sorted != [] && row.history < sorted[0].history {
      PlaceApart(row, sorted[1..]);
      PlaceElements(row, sorted[1..]);
      var rest := Place(row, sorted[1..]);
      forall i | 0 <= i < |rest| ensures rest[i].history != sorted[0].history {
        assert rest[i] in rest;
        if rest[i] != row {
          var k :| 0 <= k < |sorted[1..]| && sorted[1..][k] == rest[i];
          assert sorted[k + 1] == rest[i];
        }
      }
    }
  }

  lemma {:induction false} NewestApart(rows: seq<Native>)
    requires Apart(rows)
    ensures Apart(Newest(rows))
    decreases |rows|
  {
    if rows == [] {
    } else {
      NewestApart(rows[1..]);
      NewestElements(rows[1..]);
      var rest := Newest(rows[1..]);
      forall i | 0 <= i < |rest| ensures rest[i].history != rows[0].history {
        assert rest[i] in rest;
        var k :| 0 <= k < |rows[1..]| && rows[1..][k] == rest[i];
        assert rows[k + 1] == rest[i];
      }
      PlaceApart(rows[0], rest);
    }
  }

  function Histories(rows: seq<Native>): set<nat> {
    if rows == [] then {} else Histories(rows[..|rows| - 1]) + {rows[|rows| - 1].history}
  }

  lemma {:induction false} HistoriesMean(rows: seq<Native>, h: nat)
    ensures h in Histories(rows) <==> exists i | 0 <= i < |rows| :: rows[i].history == h
    decreases |rows|
  {
    if rows == [] {
    } else {
      HistoriesMean(rows[..|rows| - 1], h);
    }
  }

  lemma {:induction false} HistoriesCount(rows: seq<Native>)
    requires Apart(rows)
    ensures |Histories(rows)| == |rows|
    decreases |rows|
  {
    if rows == [] {
    } else {
      HistoriesCount(rows[..|rows| - 1]);
      HistoriesMean(rows[..|rows| - 1], rows[|rows| - 1].history);
    }
  }

  /** The rows of an execution, newest first and each once. */
  lemma {:induction false} InOrder(db: Db, e: Event)
    requires OneRowPerRun(db.native)
    ensures
      var all := Newest(WithBase(db.native, BaseOf(e)));
      && Apart(all) && Descending(all)
      && forall n :: n in all <==> n in db.native && OfExecution(n, e)
  {
    var own := WithBase(db.native, BaseOf(e));
    WithBaseApart(db.native, BaseOf(e));
    NewestApart(own);
    NewestSorts(own);
    WithBaseElements(db.native, BaseOf(e));
    forall n ensures OfExecution(n, e) <==> n.base == BaseOf(e) { ExecutionIsBase(n, e); }
  }

  lemma {:induction false} NewerAreBefore(db: Db, e: Event, all: seq<Native>, k: nat)
    requires Apart(all) && Descending(all) && k < |all|
    requires forall n :: n in all <==> n in db.native && OfExecution(n, e)
    ensures NewerThan(db, all[k], e) == Histories(all[..k]) && |NewerThan(db, all[k], e)| == k
  {
    hide OfExecution;
    forall h ensures h in NewerThan(db, all[k], e) <==> h in Histories(all[..k]) {
      HistoriesMean(all[..k], h);
      if h in NewerThan(db, all[k], e) {
        var m :| m in db.native && OfExecution(m, e) && m.history > all[k].history && m.history == h;
        assert m in all;
        var i :| 0 <= i < |all| && all[i] == m;
        assert i < k;
        assert all[..k][i].history == h;
      }
      if i :| 0 <= i < |all[..k]| && all[..k][i].history == h {
        assert all[i] in all && all[i].history > all[k].history;
      }
    }
    HistoriesCount(all[..k]);
  }

  lemma {:induction false} CandidatesExactly(db: Db, e: Event)
    requires OneRowPerRun(db.native)
    ensures Apart(Candidates(db, BaseOf(e)))
    ensures forall n :: n in Candidates(db, BaseOf(e)) <==> Recent(db, n, e)
  {
    var all, rows := Newest(WithBase(db.native, BaseOf(e))), Candidates(db, BaseOf(e));
    InOrder(db, e);
    hide OfExecution, Newest, WithBase, NewerThan;
    forall n ensures n in rows <==> Recent(db, n, e) {
      if n in all {
        var k :| 0 <= k < |all| && all[k] == n;
        NewerAreBefore(db, e, all, k);
        if k < |rows| { assert rows[k] == n; }
        if j :| 0 <= j < |rows| && rows[j] == n { assert all[j] == n; }
      }
      if n in rows {
        var j :| 0 <= j < |rows| && rows[j] == n;
        assert all[j] == n;
      }
    }
  }

  ghost predicate InClass(db: Db, n: Native, e: Event, fit: nat) {
    MayBind(db, n, e) && Fit(db, n, e) == fit
  }

  /** A class with one member has it, and one without another has no more. */
  lemma {:induction false} OnlyExactly(db: Db, rows: seq<Native>, e: Event, fit: nat, r: Native)
    requires Apart(rows)
    ensures Only(Group(db, rows, e, fit)) == Some(r) <==>
      (r in rows && InClass(db, r, e, fit) && forall n | n in rows && n != r :: !InClass(db, n, e, fit))
    ensures Group(db, rows, e, fit) == [] <==> forall n | n in rows :: !InClass(db, n, e, fit)
    decreases |rows|
  {
    hide Fit, Eligible, MayBind;
    if rows == [] {
    } else {
      var rest := rows[1..];
      OnlyExactly(db, rest, e, fit, r);
      EligibleExactly(db, rows[0], e);
      assert rows == [rows[0]] + rest;
      assert forall n | n in rest :: n != rows[0] by {
        forall n | n in rest ensures n.history != rows[0].history {
          var k :| 0 <= k < |rest| && rest[k] == n;
          assert rows[k + 1] == n;
        }
      }
      assert [rows[0]] + [] == [rows[0]];
      if InClass(db, rows[0], e, fit) && Group(db, rest, e, fit) != [] {
        assert exists n | n in rest :: InClass(db, n, e, fit);
      }
    }
  }

  lemma {:induction false} FindByFitExactly(db: Db, e: Event, r: Native)
    requires OneRowPerRun(db.native)
    ensures FindByFit(db, e) == Some(r) <==> BestAlone(db, r, e)
  {
    var rows := Candidates(db, BaseOf(e));
    CandidatesExactly(db, e);
    OnlyExactly(db, rows, e, 0, r);
    OnlyExactly(db, rows, e, 1, r);
    OnlyExactly(db, rows, e, 2, r);
    forall n | MayBind(db, n, e)
      ensures
        var run, fit := db.runs[n.history], Fit(db, n, e);
        && (fit == 0 <==> AtEnd(run, e)) && (fit == 1 <==> !AtEnd(run, e) && Inside(run, e))
        && (fit == 2 <==> !AtEnd(run, e) && !Inside(run, e) && Near(run, e))
    {
      FitExactly(db, n, e);
    }
    assert forall n | MayBind(db, n, e) :: n.history < |db.runs|;
    hide Fit, MayBind, Recent, Candidates, Group, AtEnd, Inside, Near;
    assert forall n :: Plausible(db, n, e) <==> n in rows && MayBind(db, n, e);
  }

  lemma {:induction false} ExactExactly(db: Db, e: Event, r: Native)
    requires OneRowPerRun(db.native)
    ensures FindExact(db, e) == Some(r) <==> NewestCarrying(db, r, e)
    ensures FindExact(db, e).None? <==> forall n | n in db.native && OfExecution(n, e) :: !Carries(db, n, e)
  {
    ExecutionIsBase(r, e);
    var all := Newest(WithBase(db.native, BaseOf(e)));
    InOrder(db, e);
    if Identity(e) != "" { FirstIsNewest(all, db.ids, Identity(e), r); }
  }

  lemma {:induction false} FirstIsNewest(rows: seq<Native>, ids: set<(nat, string)>, id: string, r: Native)
    requires Apart(rows) && Descending(rows)
    ensures FirstWithId(rows, ids, id) == Some(r) <==>
      (r in rows && (r.history, id) in ids && forall n | n in rows && (n.history, id) in ids :: n.history <= r.history)
    ensures FirstWithId(rows, ids, id).None? <==> forall n | n in rows :: (n.history, id) !in ids
    decreases |rows|
  {
    if rows == [] {
    } else {
      var rest := rows[1..];
      FirstIsNewest(rest, ids, id, r);
      assert rows == [rows[0]] + rest;
      forall n | n in rest ensures n.history < rows[0].history {
        var k :| 0 <= k < |rest| && rest[k] == n;
        assert rows[k + 1] == n;
      }
    }
  }

  /** Exactly which run an event belongs to, in every well-formed history: the newest one of
      its execution that carries its identity; and where none does, the one that is alone
      in the first of these classes that has any, among those that may bind of the twenty
      newest: at the matching end, inside, at most thirty seconds outside it. */
  lemma {:induction false} FindRunExactly(db: Db, e: Event, r: Native)
    requires OneRowPerRun(db.native)
    ensures FindRun(db, e) == Some(r) <==>
      (NewestCarrying(db, r, e)
       || ((forall n | n in db.native && OfExecution(n, e) :: !Carries(db, n, e)) && BestAlone(db, r, e)))
  {
    hide FindExact, FindByFit, BestAlone, OfExecution, Carries;
    ExactExactly(db, e, r);
    FindByFitExactly(db, e, r);
  }
}
