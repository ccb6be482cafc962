/** What projecting an event does to the tables, row by row, and what a start and its finish
    come to (dashboard/native_history.py `_project`). */
module ProjectedRuns {
  import opened Basics
  import opened Projection
  import opened ProjectionProofs
  import opened BestFit

  const RESULTS: map<string, string> := map[
    "success" := "Succeeded", "failure" := "Failed", "cancelled" := "Canceled", "timed_out" := "TimedOut",
    "skipped" := "Skipped", "neutral" := "Neutral", "action_required" := "ActionRequired", "stale" := "Stale"]

  /** A run ended at the event's instant, as it says, after the whole seconds in between. */
  function Ended(run: Run, e: Event): Run {
    Run(run.runner, run.job, run.started, Some(e.at),
        Some(if e.at < run.started then 0 else (e.at - run.started) / 1_000_000),
        if e.result.Some? && e.result.value in RESULTS then Some(RESULTS[e.result.value]) else None,
        e.result)
  }

  lemma {:induction false} ResultsAgree(result: Option<string>)
    ensures ResultOf(result) == if result.Some? && result.value in RESULTS then Some(RESULTS[result.value]) else None
  {
  }

  lemma {:induction false} CloseIsEnded(runs: seq<Run>, h: nat, e: Event)
    requires h < |runs|
    ensures Close(runs, h, e) == runs[h := Ended(runs[h], e)]
  {
    ResultsAgree(e.result);
    hide ResultOf;
  }

  /** The run holds the key that this runner, job name and start would need. */
  predicate Holds(run: Run, runner: string, job: string, started: int) {
    run.runner == runner && run.job == job && run.started == started
  }

  /** The event's job name and identity are known of the run from now on, and no others. */
  ghost predicate Learns(db: Db, h: nat, e: Event, after: Db) {
    && after.names == db.names + {(h, Title(e))}
    && after.ids == db.ids + if Identity(e) == "" then {} else {(h, Identity(e))}
  }

  /** Which events are projected: signed ones, and a worker's that names a workflow run and a
      job and is at most thirty seconds ahead of its receipt. */
  lemma {:induction false} ProjectsExactly(e: Event)
    ensures Projects(e) <==>
      (e.source == Forge
       || (&& e.runId.Some? && e.runId.value != "" && e.job.Some? && e.job.value != ""
           && e.at - e.receivedAt <= 30_000_000))
  {
  }

  // ---- an event of a known run ------------------------------------------------------------

  /** A worker's event that changes no run: older than the last news, or of a run that signed
      proof has ended, or a start of a run that has ended. */
  predicate Quiet(db: Db, r: Native, e: Event)
    requires r.history < |db.runs|
  {
    e.source == Worker
    && (e.at < r.at || (db.runs[r.history].ended.Some? && (r.source == Forge || e.state == Started)))
  }

  /** A signed event whose job name another run of that runner and start has. */
  ghost predicate NameTaken(db: Db, r: Native, e: Event)
    requires r.history < |db.runs|
  {
    var run := db.runs[r.history];
    e.source == Forge && Title(e) != run.job
    && exists other | 0 <= other < |db.runs| :: Holds(db.runs[other], run.runner, Title(e), run.started)
  }

  /** Otherwise the run takes a signed event's job name and is ended by a finish, and its row
      notes the event: who said it, when, and under which job name. A start of a run that has
      ended does not move when that was. */
  ghost predicate Noted(db: Db, r: Native, e: Event, after: Db)
    requires r.history < |db.runs|
  {
    var h, run := r.history, db.runs[r.history];
    var named := if e.source == Forge then run.(job := Title(e)) else run;
    && after.runs == db.runs[h := if e.state == Finished then Ended(named, e) else named]
    && |after.native| == |db.native|
    && forall i | 0 <= i < |db.native| ::
         after.native[i] ==
           if db.native[i].history != h then db.native[i]
           else Native(db.native[i].base, if e.source == Forge then Title(e) else r.job, h, e.source,
                       if e.state == Started && run.ended.Some? then db.native[i].at else e.at)
  }

  /** What an event does that belongs to a known run. */
  lemma {:induction false} KnownMeans(db: Db, r: Native, e: Event)
    requires r.history < |db.runs|
    ensures
      var after := ProjectKnown(db, r, e);
      && (Quiet(db, r, e) ==>
            after.Some? && Learns(db, r.history, e, after.value)
            && after.value.runs == db.runs && after.value.native == db.native)
      && (!Quiet(db, r, e) ==> (after.None? <==> NameTaken(db, r, e)))
      && (!Quiet(db, r, e) && after.Some? ==> Learns(db, r.history, e, after.value) && Noted(db, r, e, after.value))
  {
    ExecutionIsBase(r, e);
    RenameMeans(db.runs, r.history, JobOf(e));
    CloseIsEnded(db.runs, r.history, e);
    if Rename(db.runs, r.history, JobOf(e)).Some? {
      CloseIsEnded(Rename(db.runs, r.history, JobOf(e)).value, r.history, e);
    }
    LearnMeans(db, r.history, e);
    hide Close, Rename, Ended, Holds, KeyHolder, WithAliases;
  }

  lemma {:induction false} LearnMeans(db: Db, h: nat, e: Event)
    ensures Learns(db, h, e, WithAliases(db, h, e))
    ensures WithAliases(db, h, e) == db.(names := WithAliases(db, h, e).names, ids := WithAliases(db, h, e).ids)
  {
    assert db.ids + {} == db.ids;
  }

  lemma {:induction false} RenameMeans(runs: seq<Run>, h: nat, job: string)
    requires h < |runs|
    ensures
      var renamed := Rename(runs, h, job);
      && (renamed.None? <==>
            runs[h].job != job
            && exists other | 0 <= other < |runs| :: Holds(runs[other], runs[h].runner, job, runs[h].started))
      && (renamed.Some? ==> renamed.value == runs[h := runs[h].(job := job)])
  {
    var holder := KeyHolder(runs, runs[h].runner, job, runs[h].started);
    if holder.Some? { assert Holds(runs[holder.value], runs[h].runner, job, runs[h].started); }
  }

  // ---- an event of no known run ---------------------------------------------------------------

  /** The run h it is given: a new one, unless a run holds its key; ended by a finish. */
  ghost predicate Opens(db: Db, e: Event, h: nat, after: Db) {
    && (if h < |db.runs| then Holds(db.runs[h], e.runner, Title(e), e.at)
        else h == |db.runs| && forall i | 0 <= i < |db.runs| :: !Holds(db.runs[i], e.runner, Title(e), e.at))
    && Learns(db, h, e, after)
    && |after.native| == |db.native| + 1 && after.native[..|db.native|] == db.native
    && (var row := after.native[|db.native|];
        OfExecution(row, e) && row.job == Title(e) && row.history == h && row.source == e.source && row.at == e.at)
    && (var runs := if h < |db.runs| then db.runs
                    else db.runs + [Run(e.runner, Title(e), e.at, None, None, None, None)];
        h < |runs| && after.runs == if e.state == Finished then runs[h := Ended(runs[h], e)] else runs)
  }

  lemma {:induction false} NewMeans(db: Db, e: Event) returns (h: nat)
    ensures Opens(db, e, h, ProjectNew(db, e))
    ensures h == |db.runs| <==> KeyHolder(db.runs, e.runner, JobOf(e), e.at).None?
  {
    var holder := KeyHolder(db.runs, e.runner, JobOf(e), e.at);
    h := if holder.Some? then holder.value else |db.runs|;
    var runs := if holder.Some? then db.runs
                else db.runs + [Run(e.runner, JobOf(e), e.at, None, None, None, None)];
    var row := Native(BaseOf(e), JobOf(e), h, e.source, e.at);
    ExecutionIsBase(row, e);
    CloseIsEnded(runs, h, e);
    LearnMeans(db.(runs := runs, native := db.native + [row]), h, e);
    hide Close, Ended, KeyHolder;
  }

  /** What projecting an event does to the tables, whatever they hold. */
  lemma {:induction false} ProjectMeans(db: Db, e: Event)
    requires Referenced(db)
    ensures FindRun(db, e).None? ==> Project(db, e).Some? && exists h: nat :: Opens(db, e, h, Project(db, e).value)
    ensures
      FindRun(db, e).Some? ==>
        var r, after := FindRun(db, e).value, Project(db, e);
        && r.history < |db.runs|
        && (Quiet(db, r, e) ==>
              after.Some? && Learns(db, r.history, e, after.value)
              && after.value.runs == db.runs && after.value.native == db.native)
        && (!Quiet(db, r, e) ==> (after.None? <==> NameTaken(db, r, e)))
        && (!Quiet(db, r, e) && after.Some? ==> Learns(db, r.history, e, after.value) && Noted(db, r, e, after.value))
  {
    FindRunFacts(db, e);
    hide FindRun, ProjectKnown, ProjectNew, Opens, Noted, Learns;
    if FindRun(db, e).None? {
      var h := NewMeans(db, e);
    } else {
      KnownMeans(db, FindRun(db, e).value, e);
    }
  }

  // ---- a start and its finish ------------------------------------------------------------------

  /** One row, of an open run, is all there is of an execution. */
  ghost predicate OnlyRow(db: Db, a: Event, row: Native, h: nat) {
    && row in db.native && row.history == h && OfExecution(row, a) && row.job == Title(a)
    && row.source == a.source && row.at == a.at
    && (forall n | n in db.native && OfExecution(n, a) :: n == row)
    && h < |db.runs| && db.runs[h] == Run(a.runner, Title(a), a.at, None, None, None, None)
    && (h, Title(a)) in db.names
    && (forall id :: (h, id) in db.ids <==> id != "" && id == Identity(a))
  }

  ghost predicate OfOthers(mid: seq<Event>, a: Event) {
    forall i | 0 <= i < |mid| :: BaseOf(mid[i]) != BaseOf(a)
  }

  lemma {:induction false} StartOpens(db: Db, a: Event)
    requires Inv(db) && a.state == Started && !Ignored(db, a)
    requires forall n | n in db.native :: !OfExecution(n, a)
    ensures FindRun(db, a).None? && Project(db, a) == Some(ProjectNew(db, a))
    ensures
      var row := Native(BaseOf(a), Title(a), |db.runs|, a.source, a.at);
      OnlyRow(ProjectNew(db, a), a, row, |db.runs|)
  {
    FindRunFacts(db, a);
    if FindRun(db, a).Some? { ExecutionIsBase(FindRun(db, a).value, a); }
    var row := Native(BaseOf(a), Title(a), |db.runs|, a.source, a.at);
    ExecutionIsBase(row, a);
    NewShape(db, a);
    var after := ProjectNew(db, a);
    assert after.native == db.native + [row];
    assert row in after.native;
    assert forall id :: (|db.runs|, id) !in db.ids;
  }

  lemma {:induction false} OtherStep(db: Db, e: Event, a: Event, row: Native, h: nat)
    requires Inv(db) && OnlyRow(db, a, row, h) && BaseOf(e) != BaseOf(a)
    requires !Ignored(db, e) && Project(db, e).Some?
    ensures OnlyRow(Project(db, e).value, a, row, h)
  {
    if FindRun(db, e).None? { OtherOpens(db, e, a, row, h); } else { OtherNotes(db, e, a, row, h); }
  }

  lemma {:induction false} OtherOpens(db: Db, e: Event, a: Event, row: Native, h: nat)
    requires OnlyRow(db, a, row, h) && BaseOf(e) != BaseOf(a)
    requires KeyHolder(db.runs, e.runner, JobOf(e), e.at).None?
    ensures OnlyRow(ProjectNew(db, e), a, row, h)
  {
    forall n: Native ensures OfExecution(n, a) <==> n.base == BaseOf(a) { ExecutionIsBase(n, a); }
    var i :| 0 <= i < |db.native| && db.native[i] == row;
    NewShape(db, e);
    NewRuns(db, e, h);
    NewLearns(db, e);
    hide OfExecution, ProjectNew, KeyHolder, Title, Identity;
    var after := ProjectNew(db, e);
    assert after.native[i] == row;
  }

  lemma {:induction false} OtherNotes(db: Db, e: Event, a: Event, row: Native, h: nat)
    requires Inv(db) && OnlyRow(db, a, row, h) && BaseOf(e) != BaseOf(a)
    requires FindRun(db, e).Some? && Project(db, e).Some?
    ensures OnlyRow(Project(db, e).value, a, row, h)
  {
    hide FindRun;
    FindRunFacts(db, e);
    KnownNotes(db, e, FindRun(db, e).value, a, row, h);
  }

  lemma {:induction false} KnownNotes(db: Db, e: Event, r: Native, a: Event, row: Native, h: nat)
    requires Tables(db) && OneRowPerRun(db.native) && OnlyRow(db, a, row, h)
    requires r in db.native && r.base != BaseOf(a) && r.history < |db.runs| && ProjectKnown(db, r, e).Some?
    ensures OnlyRow(ProjectKnown(db, r, e).value, a, row, h)
  {
    forall n: Native ensures OfExecution(n, a) <==> n.base == BaseOf(a) { ExecutionIsBase(n, a); }
    var i :| 0 <= i < |db.native| && db.native[i] == row;
    var j :| 0 <= j < |db.native| && db.native[j] == r;
    assert i != j;
    KnownShape(db, r, e);
    KnownRuns(db, r, e, h);
    KnownRowStays(db, r, e, i);
    hide OfExecution, ProjectKnown, Title, Identity;
    OnlyOneStays(db.native, ProjectKnown(db, r, e).value.native, row, BaseOf(a));
  }

  lemma {:induction false} NewLearns(db: Db, e: Event)
    ensures
      var h := if KeyHolder(db.runs, e.runner, JobOf(e), e.at).Some?
               then KeyHolder(db.runs, e.runner, JobOf(e), e.at).value else |db.runs|;
      ProjectNew(db, e).names == db.names + {(h, JobOf(e))}
  {
  }

  lemma {:induction false} OnlyOneStays(before: seq<Native>, after: seq<Native>, row: Native, base: Base)
    requires SameRows(before, after) && row in after && OneRowPerRun(before)
    requires row in before && forall n | n in before && n.base == base :: n == row
    ensures forall n | n in after && n.base == base :: n == row
  {
    forall n | n in after && n.base == base ensures n == row {
      var i :| 0 <= i < |after| && after[i] == n;
      var k :| 0 <= k < |after| && after[k] == row;
      assert before[i] in before && before[i] == row;
      var m :| 0 <= m < |before| && before[m] == row;
      assert before[k].history == row.history;
    }
  }

  lemma {:induction false} OthersStay(db: Db, mid: seq<Event>, a: Event, row: Native, h: nat)
    requires Inv(db) && OnlyRow(db, a, row, h) && OfOthers(mid, a)
    requires NoneIgnored(db, mid) && Replay(db, mid).Some?
    ensures Inv(Replay(db, mid).value) && OnlyRow(Replay(db, mid).value, a, row, h)
    decreases |mid|
  {
    hide OnlyRow, Project, Ignored, Inv;
    if mid == [] {
    } else {
      if Projects(mid[0]) {
        ProjectKeepsInv(db, mid[0]);
        OtherStep(db, mid[0], a, row, h);
      }
      OthersStay(Take(db, mid[0]).value, mid[1..], a, row, h);
    }
  }

  /** The two can be of one execution: neither says which, or they say the same, or one says
      the hook's identity and the other the forge's. */
  predicate Compatible(a: Event, b: Event) {
    Identity(a) == "" || Identity(b) == "" || Identity(a) == Identity(b) || Hook(Identity(a)) != Hook(Identity(b))
  }

  lemma {:induction false} FinishFinds(db: Db, a: Event, b: Event, row: Native, h: nat)
    requires OneRowPerRun(db.native) && OnlyRow(db, a, row, h)
    requires BaseOf(b) == BaseOf(a) && b.state == Finished && a.at <= b.at && Compatible(a, b)
    requires b.runId.Some? && b.runId.value != ""
    ensures FindRun(db, b) == Some(row)
  {
    forall n: Native ensures OfExecution(n, a) <==> OfExecution(n, b) { ExecutionIsBase(n, a); ExecutionIsBase(n, b); }
    hide OfExecution;
    assert NewerThan(db, row, b) == {};
    assert Recent(db, row, b);
    assert MayBind(db, row, b);
    FindRunExactly(db, b, row);
  }

  /** A start, and later its signed finish, with no other run of that execution and whatever
      other executions do in between: one run, under the finish's job name, from the start's
      instant to the finish's, with its result; unless another run has that name there. */
  lemma {:induction false} StartThenFinish(db: Db, a: Event, mid: seq<Event>, b: Event)
    requires Inv(db) && forall n | n in db.native :: !OfExecution(n, a)
    requires a.state == Started && Projects(a) && !Ignored(db, a) && Project(db, a).Some?
    requires OfOthers(mid, a) && NoneIgnored(Project(db, a).value, mid) && Replay(Project(db, a).value, mid).Some?
    requires b.state == Finished && b.source == Forge && BaseOf(b) == BaseOf(a) && a.at <= b.at && Compatible(a, b)
    requires b.runId.Some? && b.runId.value != ""
    ensures
      var before, h := Replay(Project(db, a).value, mid).value, |db.runs|;
      && h < |before.runs|
      && (Project(before, b).None? <==>
            Title(b) != Title(a)
            && exists other | 0 <= other < |before.runs| :: Holds(before.runs[other], a.runner, Title(b), a.at))
      && (Project(before, b).Some? ==>
            Project(before, b).value.runs ==
              before.runs[h := Ended(Run(a.runner, Title(b), a.at, None, None, None, None), b)]
            && forall n | n in Project(before, b).value.native && OfExecution(n, a) :: n.history == h)
  {
    var h, row := |db.runs|, Native(BaseOf(a), Title(a), |db.runs|, a.source, a.at);
    StartOpens(db, a);
    ProjectKeepsInv(db, a);
    OthersStay(Project(db, a).value, mid, a, row, h);
    var before := Replay(Project(db, a).value, mid).value;
    FinishFinds(before, a, b, row, h);
    ProjectMeans(before, b);
    if Project(before, b).Some? { SameExecution(before, Project(before, b).value, a, row); }
    hide ProjectNew, ProjectKnown, FindRun, Replay, Project, Ended, OfExecution, NoneIgnored;
  }

  lemma {:induction false} SameExecution(db: Db, after: Db, a: Event, row: Native)
    requires |after.native| == |db.native| && forall n | n in db.native && OfExecution(n, a) :: n == row
    requires forall i | 0 <= i < |db.native| ::
               after.native[i].base == db.native[i].base && after.native[i].history == db.native[i].history
    ensures forall n | n in after.native && OfExecution(n, a) :: n.history == row.history
  {
    forall n | n in after.native && OfExecution(n, a) ensures n.history == row.history {
      var i :| 0 <= i < |after.native| && after.native[i] == n;
      assert db.native[i] in db.native && OfExecution(db.native[i], a);
    }
  }
}
