/** Run history read from runner logs (dashboard/history.py `open_run`, `close_run`,
    `record_controller_logs`). Rows are never deleted; a row's id is its position.
    Times are instants in one written form, so comparing them is comparing numbers. */
module RunHistory {
  import opened Basics

  datatype Run = Run(
    runner: string, job: string, started: int, ended: Option<int>, duration: Option<nat>, result: Option<string>,
    provider: string, task: Option<int>, registration: Option<string>, runnerId: Option<string>)

  /** One thing a log window tells: the runner's old rows are its own, a job started,
      a job completed. */
  datatype Line =
    | Adopt(rid: string, name: string, provider: string)
    | Start(rid: string, name: string, provider: string, job: string, at: int, task: Option<int>,
        registration: Option<string>)
    | End(rid: string, provider: string, job: string, at: int, result: string)

  // ---- adoption ----------------------------------------------------------------------

  predicate Orphan(row: Run, name: string, provider: string) {
    row.runner == name && row.provider == provider && row.runnerId.None?
  }

  function Adopted(rows: seq<Run>, rid: string, name: string, provider: string): seq<Run> {
    seq(|rows|, i requires 0 <= i < |rows| =>
      if Orphan(rows[i], name, provider) then rows[i].(runnerId := Some(rid)) else rows[i])
  }

  // ---- a start -------------------------------------------------------------------------

  predicate Keyed(row: Run, runner: string, job: string, started: int) {
    row.runner == runner && row.job == job && row.started == started
  }

  /** UNIQUE(runner, job_name, started_at) is taken. */
  predicate Held(rows: seq<Run>, runner: string, job: string, started: int) {
    exists i | 0 <= i < |rows| :: Keyed(rows[i], runner, job, started)
  }

  predicate Owned(row: Run, rid: string, job: string) {
    row.runnerId == Some(rid) && row.job == job
  }

  predicate Started(rows: seq<Run>, rid: string, job: string, at: int) {
    exists i | 0 <= i < |rows| :: Owned(rows[i], rid, job) && rows[i].started == at
  }

  /** Another runner's row under this name, job and start. */
  predicate Foreign(row: Run, rid: string, name: string, job: string, at: int) {
    Keyed(row, name, job, at) && row.runnerId.Some? && row.runnerId != Some(rid)
  }

  predicate Collides(rows: seq<Run>, rid: string, name: string, job: string, at: int) {
    exists i | 0 <= i < |rows| :: Foreign(rows[i], rid, name, job, at)
  }

  function Claimed(rows: seq<Run>, rid: string, runner: string, job: string, at: int): seq<Run> {
    seq(|rows|, i requires 0 <= i < |rows| =>
      if Keyed(rows[i], runner, job, at) && rows[i].runnerId.None? then rows[i].(runnerId := Some(rid)) else rows[i])
  }

  function Opened(rows: seq<Run>, rid: string, name: string, provider: string, job: string, at: int,
                  task: Option<int>, registration: Option<string>): seq<Run>
  {
    if Started(rows, rid, job, at) then rows
    else
      var runner := if Collides(rows, rid, name, job, at) then rid else name;
      var inserted :=
        if Held(rows, runner, job, at) then rows
        else rows + [Run(runner, job, at, None, None, None, provider, task, registration, Some(rid))];
      Claimed(inserted, rid, runner, job, at)
  }

  // ---- a completion -----------------------------------------------------------------------

  predicate Ended(rows: seq<Run>, rid: string, job: string, at: int) {
    exists i | 0 <= i < |rows| :: Owned(rows[i], rid, job) && rows[i].ended == Some(at)
  }

  predicate OpenAt(row: Run, rid: string, job: string, at: int) {
    Owned(row, rid, job) && row.ended.None? && row.started <= at
  }

  /** The most recently started of the open runs that began by then; the first of equals. */
  function Latest(rows: seq<Run>, rid: string, job: string, at: int): (found: Option<nat>)
    ensures found.Some? ==> found.value < |rows| && OpenAt(rows[found.value], rid, job, at)
  {
    if rows == [] then None
    else
      var last := |rows| - 1;
      var before := Latest(rows[..last], rid, job, at);
      if !OpenAt(rows[last], rid, job, at) then before
      else if before.Some? && rows[last].started <= rows[before.value].started then before
      else Some(last)
  }

  function Closed(rows: seq<Run>, rid: string, provider: string, job: string, at: int, result: string): seq<Run> {
    if Ended(rows, rid, job, at) then rows
    else
      var open := Latest(rows, rid, job, at);
      if open.Some? then
        var row := rows[open.value];
        rows[open.value := row.(ended := Some(at), duration := Some(at - row.started), result := Some(result))]
      else if Held(rows, rid, job, at) then rows
      else rows + [Run(rid, job, at, Some(at), Some(0), Some(result), provider, None, None, Some(rid))]
  }

  // ---- lines -----------------------------------------------------------------------------------

  function Apply(rows: seq<Run>, line: Line): seq<Run> {
    match line
    case Adopt(rid, name, provider) => Adopted(rows, rid, name, provider)
    case Start(rid, name, provider, job, at, task, registration) =>
        Opened(rows, rid, name, provider, job, at, task, registration)
    case End(rid, provider, job, at, result) => Closed(rows, rid, provider, job, at, result)
  }

  function Read(rows: seq<Run>, lines: seq<Line>): seq<Run>
    decreases |lines|
  {
    if lines == [] then rows else Read(Apply(rows, lines[0]), lines[1..])
  }

  /** The completion changes nothing although no row records it: there is no run to
      close, and the key its partial row would take is held. */
  predicate Blocked(rows: seq<Run>, line: Line) {
    && line.End? && !Ended(rows, line.rid, line.job, line.at)
    && Latest(rows, line.rid, line.job, line.at).None? && Held(rows, line.rid, line.job, line.at)
  }

  // ---- what a line does to the rows, row by row --------------------------------------------------

  /** This runner's row for this job is open and had begun by then. */
  predicate Running(row: Run, rid: string, job: string, at: int) {
    row.runnerId == Some(rid) && row.job == job && row.ended == None && row.started <= at
  }

  lemma {:induction false} LatestIsLast(rows: seq<Run>, rid: string, job: string, at: int)
    ensures
      var found := Latest(rows, rid, job, at);
      && (found.None? ==> forall k | 0 <= k < |rows| :: !Running(rows[k], rid, job, at))
      && (found.Some? ==>
            && found.value < |rows| && Running(rows[found.value], rid, job, at)
            && (forall k | 0 <= k < |rows| && Running(rows[k], rid, job, at) ::
                  rows[k].started <= rows[found.value].started)
            && (forall k | 0 <= k < found.value && Running(rows[k], rid, job, at) ::
                  rows[k].started < rows[found.value].started))
    decreases |rows|
  {
    if rows == [] {
    } else {
      var init := rows[..|rows| - 1];
      LatestIsLast(init, rid, job, at);
      assert forall k | 0 <= k < |init| :: init[k] == rows[k];
    }
  }

  /** A completion that is not recorded closes the run of its runner and job that was
      begun last among those open and begun by then, with this end, this result and the
      time in between, and touches no other row. With none open it is kept as a run of no
      length, unless the key of that row is taken. A recorded one changes nothing. */
  ghost predicate Completes(
    rows: seq<Run>, later: seq<Run>, rid: string, provider: string, job: string, at: int, result: string)
  {
    var recorded := exists k | 0 <= k < |rows| ::
      rows[k].runnerId == Some(rid) && rows[k].job == job && rows[k].ended == Some(at);
    var open := exists k | 0 <= k < |rows| :: Running(rows[k], rid, job, at);
    var taken := exists k | 0 <= k < |rows| :: rows[k].runner == rid && rows[k].job == job && rows[k].started == at;
    && (recorded || (!open && taken) ==> later == rows)
    && (!recorded && open ==> ClosesLast(rows, later, rid, job, at, result))
    && (!recorded && !open && !taken ==>
          later == rows + [Run(rid, job, at, Some(at), Some(0), Some(result), provider, None, None, Some(rid))])
  }

  ghost predicate ClosesLast(rows: seq<Run>, later: seq<Run>, rid: string, job: string, at: int, result: string) {
    exists k | 0 <= k < |rows| ::
      && Running(rows[k], rid, job, at)
      && (forall other | 0 <= other < |rows| && Running(rows[other], rid, job, at) ::
            rows[other].started <= rows[k].started)
      && later == rows[k := rows[k].(
                    ended := Some(at), duration := Some(at - rows[k].started), result := Some(result))]
  }

  lemma {:induction false} CompletionMeans(
    rows: seq<Run>, rid: string, provider: string, job: string, at: int, result: string)
    ensures Completes(rows, Apply(rows, End(rid, provider, job, at, result)), rid, provider, job, at, result)
  {
    LatestIsLast(rows, rid, job, at);
    var open := Latest(rows, rid, job, at);
    if open.Some? && !Ended(rows, rid, job, at) {
      var k := open.value;
      assert Running(rows[k], rid, job, at);
    }
  }

  /** A start that its runner has no row for gets one, under the runner's name or, where
      another runner holds that key, under its id; a row that holds the key and has no owner
      becomes its own instead; and no other row is touched. */
  ghost predicate Begins(
    rows: seq<Run>, later: seq<Run>, rid: string, name: string, provider: string, job: string, at: int,
    task: Option<int>, registration: Option<string>)
  {
    var known := exists k | 0 <= k < |rows| ::
      rows[k].runnerId == Some(rid) && rows[k].job == job && rows[k].started == at;
    var foreign := exists k | 0 <= k < |rows| ::
      && rows[k].runner == name && rows[k].job == job && rows[k].started == at
      && rows[k].runnerId != None && rows[k].runnerId != Some(rid);
    var runner := if foreign then rid else name;
    var held := exists k | 0 <= k < |rows| :: rows[k].runner == runner && rows[k].job == job && rows[k].started == at;
    && (known ==> later == rows)
    && (!known ==>
          && |later| == |rows| + (if held then 0 else 1)
          && (forall k | 0 <= k < |rows| ::
                later[k] ==
                  if rows[k].runner == runner && rows[k].job == job && rows[k].started == at && rows[k].runnerId == None
                  then rows[k].(runnerId := Some(rid)) else rows[k])
          && (!held ==>
                later[|rows|] == Run(runner, job, at, None, None, None, provider, task, registration, Some(rid))))
  }

  lemma {:induction false} StartMeans(
    rows: seq<Run>, rid: string, name: string, provider: string, job: string, at: int,
    task: Option<int>, registration: Option<string>)
    ensures Begins(rows, Apply(rows, Start(rid, name, provider, job, at, task, registration)),
                   rid, name, provider, job, at, task, registration)
  {
    var later := Apply(rows, Start(rid, name, provider, job, at, task, registration));
    if k :| 0 <= k < |rows| && rows[k].runnerId == Some(rid) && rows[k].job == job && rows[k].started == at {
      assert Owned(rows[k], rid, job);
    }
    if k :| 0 <= k < |rows| && rows[k].runner == name && rows[k].job == job && rows[k].started == at
            && rows[k].runnerId != None && rows[k].runnerId != Some(rid) {
      assert Foreign(rows[k], rid, name, job, at);
    }
    var runner := if Collides(rows, rid, name, job, at) then rid else name;
    if k :| 0 <= k < |rows| && rows[k].runner == runner && rows[k].job == job && rows[k].started == at {
      assert Keyed(rows[k], runner, job, at);
    }
  }

  /** Adoption gives exactly the rows of that name and provider that no runner owns to
      this one. */
  lemma {:induction false} AdoptionMeans(rows: seq<Run>, rid: string, name: string, provider: string)
    ensures
      var later := Apply(rows, Adopt(rid, name, provider));
      && |later| == |rows|
      && forall k | 0 <= k < |rows| ::
           later[k] == if rows[k].runner == name && rows[k].provider == provider && rows[k].runnerId == None
                       then rows[k].(runnerId := Some(rid)) else rows[k]
  {
  }

  /** Of two runs of a job that both lost nothing but the first one's completion, a
      completion closes the second. */
  lemma {:induction false} SecondStartIsClosed(
    rid: string, name: string, provider: string, job: string, first: int, second: int, at: int, result: string)
    requires first < second <= at
    ensures
      var rows := Read([], [Start(rid, name, provider, job, first, None, None),
                            Start(rid, name, provider, job, second, None, None),
                            End(rid, provider, job, at, result)]);
      && |rows| == 2
      && rows[0] == Run(name, job, first, None, None, None, provider, None, None, Some(rid))
      && rows[1] == Run(name, job, second, Some(at), Some(at - second), Some(result), provider, None, None, Some(rid))
  {
    var a, b := Start(rid, name, provider, job, first, None, None), Start(rid, name, provider, job, second, None, None);
    var c := End(rid, provider, job, at, result);
    var one, two := Apply([], a), Apply(Apply([], a), b);
    assert Read([], [a, b, c]) == Apply(two, c) by { ReadThree(a, b, c); }
    hide Read, Apply;
    StartMeans([], rid, name, provider, job, first, None, None);
    var row := Run(name, job, first, None, None, None, provider, None, None, Some(rid));
    assert one == [row];
    StartMeans(one, rid, name, provider, job, second, None, None);
    StartsSecond(row, two, rid, second);
    CompletionMeans(two, rid, provider, job, at, result);
    EndsSecond(row, second, Apply(two, c), rid, at, result);
  }

  lemma {:induction false} StartsSecond(row: Run, later: seq<Run>, rid: string, second: int)
    requires row.runnerId == Some(rid) && row.started < second
    requires Begins([row], later, rid, row.runner, row.provider, row.job, second, None, None)
    ensures later == [row, Run(row.runner, row.job, second, None, None, None, row.provider, None, None, Some(rid))]
  {
  }

  lemma {:induction false} EndsSecond(row: Run, second: int, later: seq<Run>, rid: string, at: int, result: string)
    requires row.runnerId == Some(rid) && row.started < second <= at && row.ended.None?
    requires
      var second_ := Run(row.runner, row.job, second, None, None, None, row.provider, None, None, Some(rid));
      Completes([row, second_], later, rid, row.provider, row.job, at, result)
    ensures later == [row, Run(row.runner, row.job, second, Some(at), Some(at - second), Some(result), row.provider,
                               None, None, Some(rid))]
  {
    var second_ := Run(row.runner, row.job, second, None, None, None, row.provider, None, None, Some(rid));
    var rows := [row, second_];
    assert Running(rows[1], rid, row.job, at);
    assert ClosesLast(rows, later, rid, row.job, at, result);
  }

  lemma {:induction false} ReadThree(a: Line, b: Line, c: Line)
    ensures Read([], [a, b, c]) == Apply(Apply(Apply([], a), b), c)
  {
    hide Apply;
    assert [a, b, c][1..] == [b, c] && [b, c][1..] == [c] && [c][1..] == [];
    var one := Apply([], a);
    assert Read([], [a, b, c]) == Read(one, [b, c]) == Read(Apply(one, b), [c]) == Read(Apply(Apply(one, b), c), []);
  }

  // ---- what a line has done, for good -------------------------------------------------------------

  predicate Done(rows: seq<Run>, line: Line) {
    match line
    case Adopt(rid, name, provider) => forall i | 0 <= i < |rows| :: !Orphan(rows[i], name, provider)
    case Start(rid, name, _, job, at, _, _) =>
      Started(rows, rid, job, at) || (Collides(rows, rid, name, job, at) && Collides(rows, rid, rid, job, at))
    case End(rid, _, job, at, _) => Ended(rows, rid, job, at)
  }

  /** What any line leaves of the rows there were: their key, their owner once they
      have one, their end once they have one. */
  predicate Kept(old_: Run, new_: Run) {
    && new_.runner == old_.runner && new_.job == old_.job && new_.started == old_.started
    && new_.provider == old_.provider
    && (old_.runnerId.Some? ==> new_.runnerId == old_.runnerId)
    && (old_.ended.Some? ==> new_.ended == old_.ended && new_.result == old_.result && new_.duration == old_.duration)
  }

  ghost predicate Grows(rows: seq<Run>, later: seq<Run>) {
    && |rows| <= |later|
    && (forall i | 0 <= i < |rows| :: Kept(rows[i], later[i]))
    && (forall i | 0 <= i < |later| :: later[i].runnerId.Some? || (i < |rows| && rows[i].runnerId.None?))
  }

  lemma {:induction false} ApplyGrows(rows: seq<Run>, line: Line)
    ensures Grows(rows, Apply(rows, line))
  {
  }

  ghost predicate UniqueKeys(rows: seq<Run>) {
    forall i, j | 0 <= i < j < |rows| :: !Keyed(rows[j], rows[i].runner, rows[i].job, rows[i].started)
  }

  /** Lines keep runner, job and start unique together. */
  lemma {:induction false} ApplyKeepsKeys(rows: seq<Run>, line: Line)
    requires UniqueKeys(rows)
    ensures UniqueKeys(Apply(rows, line))
  {
    var later := Apply(rows, line);
    ApplyGrows(rows, line);
    forall i, j | 0 <= i < j < |later| ensures !Keyed(later[j], later[i].runner, later[i].job, later[i].started) {
      assert Kept(rows[i], later[i]);
      if j < |rows| { assert Kept(rows[j], later[j]); }
      else { assert !Keyed(rows[i], later[j].runner, later[j].job, later[j].started); }
    }
  }

  lemma {:induction false} DoneStays(rows: seq<Run>, line: Line, other: Line)
    requires Done(rows, line)
    ensures Done(Apply(rows, other), line)
  {
    var later := Apply(rows, other);
    ApplyGrows(rows, other);
    match line
    case Adopt(_, name, provider) =>
      forall i | 0 <= i < |later| ensures !Orphan(later[i], name, provider) {
        if i < |rows| { assert Kept(rows[i], later[i]); }
      }
    case Start(rid, name, _, job, at, _, _) =>
      if Started(rows, rid, job, at) {
        StartedStays(rows, later, rid, job, at);
      } else {
        CollidesStays(rows, later, rid, name, job, at);
        CollidesStays(rows, later, rid, rid, job, at);
      }
    case End(rid, _, job, at, _) =>
      var i :| 0 <= i < |rows| && Owned(rows[i], rid, job) && rows[i].ended == Some(at);
      assert Kept(rows[i], later[i]);
      assert Owned(later[i], rid, job);
  }

  lemma {:induction false} StartedStays(rows: seq<Run>, later: seq<Run>, rid: string, job: string, at: int)
    requires Grows(rows, later) && Started(rows, rid, job, at)
    ensures Started(later, rid, job, at)
  {
    var i :| 0 <= i < |rows| && Owned(rows[i], rid, job) && rows[i].started == at;
    assert Kept(rows[i], later[i]);
    assert Owned(later[i], rid, job);
  }

  lemma {:induction false} CollidesStays(
    rows: seq<Run>, later: seq<Run>, rid: string, name: string, job: string, at: int)
    requires Grows(rows, later) && Collides(rows, rid, name, job, at)
    ensures Collides(later, rid, name, job, at)
  {
    var i :| 0 <= i < |rows| && Foreign(rows[i], rid, name, job, at);
    assert Kept(rows[i], later[i]);
    assert Foreign(later[i], rid, name, job, at);
  }

  lemma {:induction false} DoneDoesNothing(rows: seq<Run>, line: Line)
    requires UniqueKeys(rows) && Done(rows, line)
    ensures Apply(rows, line) == rows
  {
    match line
    case Adopt(rid, name, provider) => assert Adopted(rows, rid, name, provider) == rows;
    case Start(rid, name, _, job, at, _, _) =>
      if !Started(rows, rid, job, at) {
        var i :| 0 <= i < |rows| && Foreign(rows[i], rid, rid, job, at);
        assert Keyed(rows[i], rid, job, at);
        assert Claimed(rows, rid, rid, job, at) == rows;
      }
    case End(_, _, _, _, _) =>
  }

  lemma {:induction false} AppliedIsDone(rows: seq<Run>, line: Line)
    requires UniqueKeys(rows) && !Blocked(rows, line)
    ensures Done(Apply(rows, line), line)
  {
    match line
    case Adopt(_, _, _) =>
    case Start(rid, name, provider, job, at, task, registration) =>
      if !Started(rows, rid, job, at) { OpenedIsDone(rows, rid, name, provider, job, at, task, registration); }
    case End(rid, provider, job, at, result) =>
      var later := Apply(rows, line);
      var open := Latest(rows, rid, job, at);
      if !Ended(rows, rid, job, at) {
        var i := if open.Some? then open.value else |rows|;
        assert Owned(later[i], rid, job) && later[i].ended == Some(at);
      }
  }

  lemma {:induction false} OpenedIsDone(
    rows: seq<Run>, rid: string, name: string, provider: string, job: string, at: int, task: Option<int>,
    registration: Option<string>)
    requires UniqueKeys(rows) && !Started(rows, rid, job, at)
    ensures Done(Opened(rows, rid, name, provider, job, at, task, registration),
        Start(rid, name, provider, job, at, task, registration))
  {
    var later := Opened(rows, rid, name, provider, job, at, task, registration);
    ApplyGrows(rows, Start(rid, name, provider, job, at, task, registration));
    var collides := Collides(rows, rid, name, job, at);
    var runner := if collides then rid else name;
    if Held(rows, runner, job, at) {
      var i :| 0 <= i < |rows| && Keyed(rows[i], runner, job, at);
      if rows[i].runnerId.None? {
        assert Owned(later[i], rid, job) && later[i].started == at;
      } else {
        assert Owned(rows[i], rid, job) <==> rows[i].runnerId == Some(rid);
        assert Foreign(rows[i], rid, runner, job, at);
        CollidesStays(rows, later, rid, name, job, at);
        CollidesStays(rows, later, rid, rid, job, at);
      }
    } else {
      assert Owned(later[|rows|], rid, job) && later[|rows|].started == at;
    }
  }

  // ---- reading windows over and over -----------------------------------------------------------

  lemma {:induction false} DoneStaysThrough(rows: seq<Run>, line: Line, between: seq<Line>)
    requires UniqueKeys(rows) && Done(rows, line)
    ensures UniqueKeys(Read(rows, between)) && Done(Read(rows, between), line)
    decreases |between|
  {
    if between == [] {
    } else {
      DoneStays(rows, line, between[0]);
      ApplyKeepsKeys(rows, between[0]);
      DoneStaysThrough(Apply(rows, between[0]), line, between[1..]);
    }
  }

  /** A line once processed is absorbed: at any later point, whatever was read in
      between, reading it again changes no row. A completion must not have been
      blocked. */
  lemma {:induction false} ReplayIsAbsorbed(rows: seq<Run>, line: Line, between: seq<Line>)
    requires UniqueKeys(rows) && !Blocked(rows, line)
    ensures
      var later := Read(Apply(rows, line), between);
      Apply(later, line) == later
  {
    AppliedIsDone(rows, line);
    ApplyKeepsKeys(rows, line);
    DoneStaysThrough(Apply(rows, line), line, between);
    DoneDoesNothing(Read(Apply(rows, line), between), line);
  }

  /** And it must: for every blocked completion there is a start line, of an earlier
      run of that job, after which reading the completion again does change a row. */
  lemma {:induction false} BlockedIsNotAbsorbed(rows: seq<Run>, line: Line) returns (start: Line)
    requires UniqueKeys(rows) && Blocked(rows, line)
    ensures start.Start? && start.at < line.at
    ensures
      var later := Read(Apply(rows, line), [start]);
      Apply(later, line) != later
  {
    var s := Earlier(rows, line.at);
    start := Start(line.rid, line.rid, line.provider, line.job, s, None, None);
    assert Apply(rows, line) == rows;
    var later := Apply(rows, start);
    assert [start][1..] == [] && Read(rows, [start]) == Read(later, []);
    OpensEarlier(rows, line, s);
    ClosesOnly(rows, line, later);
  }

  lemma {:induction false} OpensEarlier(rows: seq<Run>, line: Line, s: int)
    requires line.End? && forall i | 0 <= i < |rows| :: s < rows[i].started
    ensures
      Apply(rows, Start(line.rid, line.rid, line.provider, line.job, s, None, None)) ==
        rows + [Run(line.rid, line.job, s, None, None, None, line.provider, None, None, Some(line.rid))]
  {
    assert !Held(rows, line.rid, line.job, s) && !Started(rows, line.rid, line.job, s);
    assert !Collides(rows, line.rid, line.rid, line.job, s);
  }

  lemma {:induction false} ClosesOnly(rows: seq<Run>, line: Line, later: seq<Run>)
    requires line.End? && !Ended(rows, line.rid, line.job, line.at)
    requires |later| == |rows| + 1 && later[..|rows|] == rows && OpenAt(later[|rows|], line.rid, line.job, line.at)
    requires Latest(rows, line.rid, line.job, line.at).None?
    ensures Apply(later, line) != later
  {
    assert Latest(later, line.rid, line.job, line.at) == Some(|rows|);
    assert forall i | 0 <= i < |rows| :: later[i] == rows[i];
    assert !Ended(later, line.rid, line.job, line.at);
    assert Apply(later, line)[|rows|].ended == Some(line.at);
  }

  /** An instant before all the starts. */
  lemma {:induction false} Earlier(rows: seq<Run>, at: int) returns (s: int)
    ensures s < at && forall i | 0 <= i < |rows| :: s < rows[i].started
    decreases |rows|
  {
    if rows == [] {
      s := at - 1;
    } else {
      var rest := Earlier(rows[1..], at);
      s := if rest < rows[0].started then rest else rows[0].started - 1;
      forall i | 0 <= i < |rows| ensures s < rows[i].started {
        if i > 0 { assert rows[i] == rows[1..][i - 1]; }
      }
    }
  }

  /** The lines without those that already occurred. */
  function FirstOnly(lines: seq<Line>): seq<Line> {
    if lines == [] then []
    else
      var init, last := lines[..|lines| - 1], lines[|lines| - 1];
      if last in init then FirstOnly(init) else FirstOnly(init) + [last]
  }

  /** Read once, none of these completions is blocked. */
  predicate Unblocked(rows: seq<Run>, lines: seq<Line>)
    decreases |lines|
  {
    lines == [] || (!Blocked(rows, lines[0]) && Unblocked(Apply(rows, lines[0]), lines[1..]))
  }

  lemma {:induction false} ReadAppends(rows: seq<Run>, lines: seq<Line>, last: Line)
    ensures Read(rows, lines + [last]) == Apply(Read(rows, lines), last)
    ensures Unblocked(rows, lines + [last]) <==> Unblocked(rows, lines) && !Blocked(Read(rows, lines), last)
    decreases |lines|
  {
    if lines == [] {
      assert [last][1..] == [];
    } else {
      assert (lines + [last])[1..] == lines[1..] + [last];
      ReadAppends(Apply(rows, lines[0]), lines[1..], last);
    }
  }

  ghost predicate AllDone(rows: seq<Run>, lines: seq<Line>) {
    forall i | 0 <= i < |lines| :: Done(rows, lines[i])
  }

  /** Repeating lines already read, in any order and number, gives the same table as
      reading each once. */
  lemma {:induction false} RepeatsChangeNothing(rows: seq<Run>, lines: seq<Line>)
    requires UniqueKeys(rows) && Unblocked(rows, FirstOnly(lines))
    ensures Read(rows, lines) == Read(rows, FirstOnly(lines))
    ensures UniqueKeys(Read(rows, lines)) && AllDone(Read(rows, lines), lines)
    decreases |lines|
  {
    if lines == [] {
    } else {
      var init, last := lines[..|lines| - 1], lines[|lines| - 1];
      assert init + [last] == lines;
      ReadAppends(rows, init, last);
      if last !in init { ReadAppends(rows, FirstOnly(init), last); }
      RepeatsChangeNothing(rows, init);
      var so := Read(rows, init);
      if last in init {
        var i :| 0 <= i < |init| && init[i] == last;
        assert Done(so, init[i]);
        DoneDoesNothing(so, last);
      } else {
        AppliedIsDone(so, last);
        ApplyKeepsKeys(so, last);
      }
      forall i | 0 <= i < |lines| ensures Done(Read(rows, lines), lines[i]) {
        if i < |init| {
          assert Done(so, init[i]);
          DoneStays(so, init[i], last);
        }
      }
    }
  }

  // ---- reading again under another name ---------------------------------------------------------

  /** Two readings of one thing that happened: a runner's name and registration may have
      changed in between, its identity, its job and the instant have not. */
  predicate SameFact(line: Line, other: Line) {
    match line
    case Adopt(_, name, provider) => other.Adopt? && other.name == name && other.provider == provider
    case Start(rid, _, _, job, at, _, _) => other.Start? && other.rid == rid && other.job == job && other.at == at
    case End(rid, _, job, at, _) => other.End? && other.rid == rid && other.job == job && other.at == at
  }

  /** A start no row can be made for: both keys it could take are other runners'. */
  predicate Shut(rows: seq<Run>, line: Line) {
    && line.Start? && !Started(rows, line.rid, line.job, line.at)
    && Collides(rows, line.rid, line.name, line.job, line.at) && Collides(rows, line.rid, line.rid, line.job, line.at)
  }

  /** Done whatever name it is read under. */
  predicate Settled(rows: seq<Run>, line: Line) {
    Done(rows, line) && (line.Start? ==> Started(rows, line.rid, line.job, line.at))
  }

  /** Exactly when a line changes no row at all. */
  lemma {:induction false} DoesNothingExactly(rows: seq<Run>, line: Line)
    requires UniqueKeys(rows)
    ensures Apply(rows, line) == rows <==> Done(rows, line) || Blocked(rows, line)
  {
    if Done(rows, line) { DoneDoesNothing(rows, line); }
    if !Blocked(rows, line) { AppliedIsDone(rows, line); }
  }

  /** Exactly when a start leaves its runner with a row for it. */
  lemma {:induction false} OpensExactly(rows: seq<Run>, line: Line)
    requires UniqueKeys(rows) && line.Start?
    ensures Started(Apply(rows, line), line.rid, line.job, line.at) <==> !Shut(rows, line)
  {
    if Shut(rows, line) {
      DoneDoesNothing(rows, line);
    } else if !Started(rows, line.rid, line.job, line.at) {
      OpenedIsStarted(rows, line.rid, line.name, line.provider, line.job, line.at, line.task, line.registration);
    }
  }

  lemma {:induction false} OpenedIsStarted(
    rows: seq<Run>, rid: string, name: string, provider: string, job: string, at: int, task: Option<int>,
    registration: Option<string>)
    requires UniqueKeys(rows) && !Started(rows, rid, job, at)
    requires !(Collides(rows, rid, name, job, at) && Collides(rows, rid, rid, job, at))
    ensures Started(Opened(rows, rid, name, provider, job, at, task, registration), rid, job, at)
  {
    var later := Opened(rows, rid, name, provider, job, at, task, registration);
    var runner := if Collides(rows, rid, name, job, at) then rid else name;
    if Held(rows, runner, job, at) {
      var i :| 0 <= i < |rows| && Keyed(rows[i], runner, job, at);
      assert !Foreign(rows[i], rid, runner, job, at);
      assert Owned(later[i], rid, job) && later[i].started == at;
    } else {
      assert Owned(later[|rows|], rid, job) && later[|rows|].started == at;
    }
  }

  lemma {:induction false} AppliedIsSettled(rows: seq<Run>, line: Line)
    requires UniqueKeys(rows) && !Blocked(rows, line) && !Shut(rows, line)
    ensures Settled(Apply(rows, line), line)
  {
    AppliedIsDone(rows, line);
    if line.Start? { OpensExactly(rows, line); }
  }

  lemma {:induction false} SettledStays(rows: seq<Run>, line: Line, other: Line)
    requires Settled(rows, line)
    ensures Settled(Apply(rows, other), line)
  {
    DoneStays(rows, line, other);
    if line.Start? {
      ApplyGrows(rows, other);
      StartedStays(rows, Apply(rows, other), line.rid, line.job, line.at);
    }
  }

  /** The fact of this line was read before. */
  predicate Told(lines: seq<Line>, line: Line) {
    exists i | 0 <= i < |lines| :: SameFact(lines[i], line)
  }

  /** The first reading of each fact. */
  function News(lines: seq<Line>): seq<Line> {
    if lines == [] then []
    else
      var init, last := lines[..|lines| - 1], lines[|lines| - 1];
      if Told(init, last) then News(init) else News(init) + [last]
  }

  /** Read once, none of these completions is blocked and none of these starts shut out. */
  predicate Unhindered(rows: seq<Run>, lines: seq<Line>)
    decreases |lines|
  {
    lines == []
    || (!Blocked(rows, lines[0]) && !Shut(rows, lines[0]) && Unhindered(Apply(rows, lines[0]), lines[1..]))
  }

  lemma {:induction false} UnhinderedAppends(rows: seq<Run>, lines: seq<Line>, last: Line)
    ensures Unhindered(rows, lines + [last]) <==>
      (Unhindered(rows, lines) && !Blocked(Read(rows, lines), last) && !Shut(Read(rows, lines), last))
    decreases |lines|
  {
    hide Blocked, Shut, Apply;
    if lines == [] {
      assert [last][1..] == [];
    } else {
      assert (lines + [last])[1..] == lines[1..] + [last];
      UnhinderedAppends(Apply(rows, lines[0]), lines[1..], last);
    }
  }

  ghost predicate AllSettled(rows: seq<Run>, lines: seq<Line>) {
    forall i | 0 <= i < |lines| :: Settled(rows, lines[i])
  }

  lemma {:induction false} ReadAgain(rows: seq<Run>, line: Line, other: Line)
    requires UniqueKeys(rows) && Settled(rows, line) && SameFact(line, other)
    ensures Apply(rows, other) == rows && Settled(rows, other)
  {
    DoneDoesNothing(rows, other);
  }

  /** Reading facts again, under whatever names their runners have by then, gives the
      same table as reading each once. */
  lemma {:induction false} RenamesChangeNothing(rows: seq<Run>, lines: seq<Line>)
    requires UniqueKeys(rows) && Unhindered(rows, News(lines))
    ensures Read(rows, lines) == Read(rows, News(lines))
    ensures UniqueKeys(Read(rows, lines)) && AllSettled(Read(rows, lines), lines)
    decreases |lines|
  {
    hide SameFact, Settled, Shut, Blocked, UniqueKeys, Apply;
    if lines == [] {
    } else {
      var init, last := lines[..|lines| - 1], lines[|lines| - 1];
      assert init + [last] == lines;
      ReadAppends(rows, init, last);
      if !Told(init, last) {
        ReadAppends(rows, News(init), last);
        UnhinderedAppends(rows, News(init), last);
      }
      RenamesChangeNothing(rows, init);
      var so := Read(rows, init);
      if Told(init, last) {
        var i :| 0 <= i < |init| && SameFact(init[i], last);
        assert Settled(so, init[i]);
        ReadAgain(so, init[i], last);
      } else {
        AppliedIsSettled(so, last);
        ApplyKeepsKeys(so, last);
      }
      forall i | 0 <= i < |lines| ensures Settled(Read(rows, lines), lines[i]) {
        if i < |init| {
          assert Settled(so, init[i]);
          SettledStays(so, init[i], last);
        }
      }
    }
  }

  /** Exactly when a line read again under another name is absorbed, whatever was read in
      between. A completion always is. A start is when its runner has a row for it, or
      when its new name's key is another runner's as well. */
  lemma {:induction false} RenamedIsAbsorbedExactly(rows: seq<Run>, line: Line, between: seq<Line>, other: Line)
    requires UniqueKeys(rows) && !Blocked(rows, line) && SameFact(line, other)
    ensures
      var later := Read(Apply(rows, line), between);
      Apply(later, other) == later <==>
        (line.Start? ==> Started(later, line.rid, line.job, line.at)
                         || Collides(later, line.rid, other.name, line.job, line.at))
  {
    AppliedIsDone(rows, line);
    ApplyKeepsKeys(rows, line);
    DoneStaysThrough(Apply(rows, line), line, between);
    DoesNothingExactly(Read(Apply(rows, line), between), other);
  }

  /** Longer than the name of any row. */
  lemma {:induction false} NewName(rows: seq<Run>) returns (name: string)
    ensures forall i | 0 <= i < |rows| :: |rows[i].runner| < |name|
    decreases |rows|
  {
    if rows == [] {
      name := "";
    } else {
      var rest := NewName(rows[1..]);
      name := rest + rows[0].runner + "x";
      forall i | 0 <= i < |rows| ensures |rows[i].runner| < |name| {
        if i > 0 { assert rows[i] == rows[1..][i - 1]; }
      }
    }
  }

  /** And it must have a row: for every start that is shut out there is a name under which
      reading it again does change a row. */
  lemma {:induction false} ShutIsNotAbsorbed(rows: seq<Run>, line: Line) returns (other: Line)
    requires UniqueKeys(rows) && Shut(rows, line)
    ensures SameFact(line, other) && Apply(rows, line) == rows && Apply(rows, other) != rows
  {
    var name := NewName(rows);
    other := line.(name := name);
    DoesNothingExactly(rows, line);
    DoesNothingExactly(rows, other);
  }

  // ---- overlapping windows ------------------------------------------------------------------

  /** Part of a log: lines from..to. */
  datatype Window = Window(from: nat, to: nat)

  /** Each window starts no later than the lines read so far reach. */
  predicate Covering(windows: seq<Window>, log: seq<Line>) {
    windows == []
    || (var init, last := windows[..|windows| - 1], windows[|windows| - 1];
        Covering(init, log) && last.from <= last.to <= |log| && last.from <= Reach(init))
  }

  function Reach(windows: seq<Window>): nat {
    if windows == [] then 0
    else
      var before := Reach(windows[..|windows| - 1]);
      if before < windows[|windows| - 1].to then windows[|windows| - 1].to else before
  }

  lemma {:induction false} ReachInside(windows: seq<Window>, log: seq<Line>)
    requires Covering(windows, log)
    ensures Reach(windows) <= |log|
    decreases |windows|
  {
    if windows == [] {
    } else {
      ReachInside(windows[..|windows| - 1], log);
    }
  }

  /** What the calls read: each adopts first, then reads its window. */
  function Calls(windows: seq<Window>, log: seq<Line>, adopt: Line): seq<Line>
    requires Covering(windows, log)
    decreases |windows|
  {
    if windows == [] then []
    else
      var last := windows[|windows| - 1];
      Calls(windows[..|windows| - 1], log, adopt) + [adopt] + log[last.from..last.to]
  }

  lemma {:induction false} FirstOnlyKeepsAll(lines: seq<Line>, line: Line)
    ensures line in FirstOnly(lines) <==> line in lines
    decreases |lines|
  {
    if lines == [] {
    } else {
      FirstOnlyKeepsAll(lines[..|lines| - 1], line);
      assert lines == lines[..|lines| - 1] + [lines[|lines| - 1]];
    }
  }

  lemma {:induction false} SameFirsts(x: seq<Line>, y: seq<Line>, z: seq<Line>)
    requires FirstOnly(x) == FirstOnly(y)
    ensures FirstOnly(x + z) == FirstOnly(y + z)
    decreases |z|
  {
    if z == [] {
      assert x + z == x && y + z == y;
    } else {
      var init, last := z[..|z| - 1], z[|z| - 1];
      SameFirsts(x, y, init);
      assert (x + z)[..|x + z| - 1] == x + init && (y + z)[..|y + z| - 1] == y + init;
      FirstOnlyKeepsAll(x + init, last);
      FirstOnlyKeepsAll(y + init, last);
    }
  }

  lemma {:induction false} KnownAddNothing(x: seq<Line>, y: seq<Line>)
    requires forall line | line in y :: line in x
    ensures FirstOnly(x + y) == FirstOnly(x)
    decreases |y|
  {
    if y == [] {
      assert x + y == x;
    } else {
      var init, last := y[..|y| - 1], y[|y| - 1];
      assert forall line | line in init :: line in y;
      KnownAddNothing(x, init);
      assert (x + y)[..|x + y| - 1] == x + init;
      assert last in y && last in x + init;
    }
  }

  lemma {:induction false} NothingNew(x: seq<Line>, log: seq<Line>, adopt: Line, r: nat, from: nat, to: nat)
    requires from <= to <= r <= |log| && FirstOnly(x) == FirstOnly([adopt] + log[..r])
    ensures FirstOnly(x + ([adopt] + log[from..to])) == FirstOnly([adopt] + log[..r])
  {
    SameFirsts(x, [adopt] + log[..r], [adopt] + log[from..to]);
    Within(log, adopt, r, from, to);
    KnownAddNothing([adopt] + log[..r], [adopt] + log[from..to]);
  }

  lemma {:induction false} OneMoreWindow(x: seq<Line>, log: seq<Line>, adopt: Line, r: nat, from: nat, to: nat)
    requires from <= r <= |log| && from <= to <= |log|
    requires FirstOnly(x) == FirstOnly([adopt] + log[..r])
    ensures FirstOnly(x + [adopt] + log[from..to]) == FirstOnly([adopt] + log[..if r < to then to else r])
  {
    if to <= r {
      NothingNew(x, log, adopt, r, from, to);
      Regroup(x, [adopt], log[from..to], []);
    } else {
      var p, q := log[from..r], log[r..to];
      assert log[from..to] == p + q && log[..to] == log[..r] + q by { Cut(log, from, r, to); }
      NothingNew(x, log, adopt, r, from, r);
      SameFirsts(x + ([adopt] + p), [adopt] + log[..r], q);
      Regroup(x, [adopt], p, q);
      Regroup([], [adopt], log[..r], q);
    }
  }

  lemma {:induction false} Cut(log: seq<Line>, from: nat, r: nat, to: nat)
    requires from <= r <= to <= |log|
    ensures log[from..to] == log[from..r] + log[r..to]
    ensures log[..to] == log[..r] + log[r..to]
  {
  }

  lemma {:induction false} Regroup(x: seq<Line>, y: seq<Line>, p: seq<Line>, q: seq<Line>)
    ensures x + y + (p + q) == x + (y + p) + q
    ensures x == [] ==> y + (p + q) == (y + p) + q
    ensures q == [] ==> x + y + p == x + (y + p)
  {
  }

  lemma {:induction false} Within(log: seq<Line>, adopt: Line, r: nat, from: nat, to: nat)
    requires from <= to <= r <= |log|
    ensures forall line | line in [adopt] + log[from..to] :: line in [adopt] + log[..r]
  {
    forall line | line in log[from..to] ensures line in log[..r] {
      var i :| 0 <= i < to - from && log[from..to][i] == line;
      assert log[..r][from + i] == line;
    }
  }

  lemma {:induction false} WindowsAddUp(windows: seq<Window>, log: seq<Line>, adopt: Line)
    requires windows != [] && Covering(windows, log)
    ensures Reach(windows) <= |log|
    ensures FirstOnly(Calls(windows, log, adopt)) == FirstOnly([adopt] + log[..Reach(windows)])
    decreases |windows|
  {
    ReachInside(windows, log);
    var init, last := windows[..|windows| - 1], windows[|windows| - 1];
    ReachInside(init, log);
    if init == [] {
      assert Calls(windows, log, adopt) == [] + [adopt] + log[last.from..last.to] == [adopt] + log[..last.to];
    } else {
      WindowsAddUp(init, log, adopt);
      OneMoreWindow(Calls(init, log, adopt), log, adopt, Reach(init), last.from, last.to);
    }
  }

  /** Overlapping windows of a log give the same table as reading what they cover
      once, as long as reading it once blocks no completion. */
  lemma {:induction false} OverlapIsHarmless(rows: seq<Run>, windows: seq<Window>, log: seq<Line>, adopt: Line)
    requires UniqueKeys(rows) && windows != [] && Covering(windows, log)
    requires Reach(windows) <= |log| && Unblocked(rows, FirstOnly([adopt] + log[..Reach(windows)]))
    ensures Read(rows, Calls(windows, log, adopt)) == Read(rows, [adopt] + log[..Reach(windows)])
  {
    WindowsAddUp(windows, log, adopt);
    RepeatsChangeNothing(rows, Calls(windows, log, adopt));
    RepeatsChangeNothing(rows, [adopt] + log[..Reach(windows)]);
  }

  /** The exception is real: a job's completion at the second another run of the same
      job, already over, had started. */
  lemma {:induction false} BlockedIsReachable(rid: string, job: string)
    ensures
      var rows := Read([], [Start(rid, rid, "github", job, 10, None, None), End(rid, "github", job, 15, "Succeeded")]);
      UniqueKeys(rows) && Blocked(rows, End(rid, "github", job, 10, "Failed"))
  {
    var start, end := Start(rid, rid, "github", job, 10, None, None), End(rid, "github", job, 15, "Succeeded");
    var open := Run(rid, job, 10, None, None, None, "github", None, None, Some(rid));
    var closed := open.(ended := Some(15), duration := Some(5), result := Some("Succeeded"));
    assert Apply([], start) == [open];
    assert [open][..0] == [];
    assert OpenAt([open][0], rid, job, 15) && Latest([open], rid, job, 15) == Some(0);
    assert !Ended([open], rid, job, 15);
    assert Apply([open], end) == [closed];
    assert [start, end][1..] == [end] && [end][1..] == [];
    assert Read([open], [end]) == Read([closed], []);
    assert Read([], [start, end]) == [closed];
    assert Keyed([closed][0], rid, job, 10);
    assert [closed][..0] == [];
    assert Latest([closed], rid, job, 10).None?;
  }

  // ---- the table, changed in place -------------------------------------------------------------

  class RunTable {
    var rows: seq<Run>

    constructor ()
      ensures rows == []
    {
      rows := [];
    }

    method OpenRun(
      rid: string, name: string, provider: string, job: string, at: int, task: Option<int>,
      registration: Option<string>)
      modifies this
      ensures rows == Opened(old(rows), rid, name, provider, job, at, task, registration)
    {
      var runner := name;
      for i := 0 to |rows|
        invariant rows == old(rows)
        invariant forall k | 0 <= k < i :: !(Owned(rows[k], rid, job) && rows[k].started == at)
      {
        if Owned(rows[i], rid, job) && rows[i].started == at { return; }
      }
      var held := false;
      for i := 0 to |rows|
        invariant rows == old(rows) && (runner == name || runner == rid)
        invariant runner != name ==> Collides(rows, rid, name, job, at)
        invariant (exists k | 0 <= k < i :: Foreign(rows[k], rid, name, job, at)) ==> runner == rid
      {
        if Keyed(rows[i], name, job, at) && rows[i].runnerId.Some? && rows[i].runnerId != Some(rid) {
          assert Foreign(rows[i], rid, name, job, at);
          runner := rid;
        }
      }
      for i := 0 to |rows|
        invariant rows == old(rows)
        invariant held <==> exists k | 0 <= k < i :: Keyed(rows[k], runner, job, at)
      {
        if Keyed(rows[i], runner, job, at) { held := true; }
      }
      if !held {
        rows := rows + [Run(runner, job, at, None, None, None, provider, task, registration, Some(rid))];
      }
      ghost var inserted := rows;
      for i := 0 to |rows|
        invariant |rows| == |inserted|
        invariant forall k | 0 <= k < |rows| ::
            rows[k] == if k < i then Claimed(inserted, rid, runner, job, at)[k] else inserted[k]
      {
        if Keyed(rows[i], runner, job, at) && rows[i].runnerId.None? {
          rows := rows[i := rows[i].(runnerId := Some(rid))];
        }
      }
      assert rows == Claimed(inserted, rid, runner, job, at);
    }

    method CloseRun(rid: string, provider: string, job: string, at: int, result: string)
      modifies this
      ensures rows == Closed(old(rows), rid, provider, job, at, result)
    {
      var open: Option<nat> := None;
      for i := 0 to |rows|
        invariant rows == old(rows)
        invariant forall k | 0 <= k < i :: !(Owned(rows[k], rid, job) && rows[k].ended == Some(at))
      {
        if Owned(rows[i], rid, job) && rows[i].ended == Some(at) { return; }
      }
      for i := 0 to |rows|
        invariant rows == old(rows)
        invariant open == Latest(rows[..i], rid, job, at)
      {
        assert rows[..i + 1][..i] == rows[..i];
        if OpenAt(rows[i], rid, job, at) && (open.None? || rows[i].started > rows[open.value].started) {
          open := Some(i);
        }
      }
      assert rows[..|rows|] == rows;
      if open.Some? {
        var row := rows[open.value];
        rows := rows[open.value := row.(ended := Some(at), duration := Some(at - row.started), result := Some(result))];
        return;
      }
      for i := 0 to |rows|
        invariant rows == old(rows)
        invariant forall k | 0 <= k < i :: !Keyed(rows[k], rid, job, at)
      {
        if Keyed(rows[i], rid, job, at) { return; }
      }
      rows := rows + [Run(rid, job, at, Some(at), Some(0), Some(result), provider, None, None, Some(rid))];
    }

    method AdoptRows(rid: string, name: string, provider: string)
      modifies this
      ensures rows == Adopted(old(rows), rid, name, provider)
    {
      for i := 0 to |rows|
        invariant |rows| == |old(rows)|
        invariant forall k | 0 <= k < |rows| ::
            rows[k] == if k < i then Adopted(old(rows), rid, name, provider)[k] else old(rows)[k]
      {
        if Orphan(rows[i], name, provider) { rows := rows[i := rows[i].(runnerId := Some(rid))]; }
      }
    }

    /** `record_controller_logs`, for a window already parsed into starts and ends. */
    method RecordLogs(rid: string, name: string, provider: string, events: seq<Line>)
      requires forall k | 0 <= k < |events| :: !events[k].Adopt?
      modifies this
      ensures rows == Read(old(rows), [Adopt(rid, name, provider)] + events)
    {
      ghost var lines := [Adopt(rid, name, provider)] + events;
      AdoptRows(rid, name, provider);
      assert lines[1..] == events;
      for i := 0 to |events|
        invariant Read(rows, events[i..]) == Read(old(rows), lines)
      {
        assert events[i..][0] == events[i] && events[i..][1..] == events[i + 1..];
        match events[i]
        case Start(r, n, p, job, at, task, registration) => OpenRun(r, n, p, job, at, task, registration);
        case End(r, p, job, at, result) => CloseRun(r, p, job, at, result);
      }
    }
  }
}
