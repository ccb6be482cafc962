/** What acknowledging an alarm silences, and what it does not (dashboard/alarms.py
    `acknowledge`). */
module Acknowledgements {
  import opened Basics
  import opened Alarms
  import opened AlarmRuns
  import opened PlannedRaises
  import opened AlarmCourses

  // ---- after an acknowledgement ------------------------------------------------------------

  /** The first reading that sees the runner offline without a reason. */
  ghost predicate FirstTurn(key: Key, rest: seq<Input>, u: nat) {
    && u < |rest| && SeesUnplanned(rest[u], key)
    && forall k | 0 <= k < u :: !SeesUnplanned(rest[k], key)
  }

  /** An unraised watch comes due, or a planned raise turns and comes due again. */
  ghost predicate RaiseFollows(row: Row, key: Key, rest: seq<Input>) {
    if row.raised.None? then EverDue(rest, key, row.since)
    else
      && row.kind == RunnerPlanned
      && exists u: nat | FirstTurn(key, rest, u) :: EverDue(rest[u..], key, Stamp(rest[u].now))
  }

  lemma {:induction false} FirstOfTurns(key: Key, rest: seq<Input>) returns (u: nat)
    requires Turned(key, rest, 0)
    ensures FirstTurn(key, rest, u)
    decreases |rest|
  {
    var init, last := rest[..|rest| - 1], rest[|rest| - 1];
    assert rest == init + [last];
    TurnedGrows(key, init, 0, last);
    if Turned(key, init, 0) {
      u := FirstOfTurns(key, init);
      assert forall k | 0 <= k <= u :: init[k] == rest[k];
    } else {
      u := |init|;
      assert forall k | 0 <= k < u :: init[k] == rest[k];
    }
  }

  lemma {:induction false} FirstTurnTurns(key: Key, rest: seq<Input>)
    ensures (exists u: nat :: FirstTurn(key, rest, u)) ==> Turned(key, rest, 0)
  {
    if u: nat :| FirstTurn(key, rest, u) { assert SeesUnplanned(rest[u], key); }
  }

  lemma {:induction false} TurnedRun(row: Row, key: Key, rest: seq<Input>, u: nat)
    requires key.RunnerKey? && StandsPlanned(Some(row)) && Lasts(key, rest) && FirstTurn(key, rest, u)
    ensures Raises(RunFrom(Some(row), key, rest).events) <==> EverDue(rest[u..], key, Stamp(rest[u].now))
  {
    var a, b, turn := rest[..u], rest[u..], rest[u];
    assert rest == a + b && b == [turn] + b[1..];
    RaisedRun(Some(row), key, a);
    RunFromJoins(Some(row), key, a, b);
    var mid := RunFrom(Some(row), key, a).row;
    BeginsAnew(mid, key, turn, b[1..]);
    UnraisedRun(Some(Begun(turn)), key, Stamp(turn.now), b);
    RaisesJoins(RunFrom(Some(row), key, a).events, RunFrom(mid, key, b).events);
  }

  /** While the alarm lasts, what follows a row is told again exactly then. */
  lemma {:induction false} RaisedAgainExactly(row: Row, key: Key, rest: seq<Input>)
    requires key.RunnerKey? && IsRunnerKind(row.kind) && Lasts(key, rest)
    ensures Raises(RunFrom(Some(row), key, rest).events) <==> RaiseFollows(row, key, rest)
  {
    if row.raised.None? {
      UnraisedRun(Some(row), key, row.since, rest);
    } else if row.kind == RunnerPlanned && Turned(key, rest, 0) {
      var u := FirstOfTurns(key, rest);
      TurnedRun(row, key, rest, u);
      assert forall v: nat | FirstTurn(key, rest, v) :: v == u;
    } else {
      RaisedRun(Some(row), key, rest);
      FirstTurnTurns(key, rest);
    }
  }

  /** Over every run: after a runner's alarm was acknowledged, and as long as no reading
      sees the runner online or gone, a raise is told for it if and only if the watch had
      not been raised yet and comes due, or its raise was a planned one that has turned
      and comes due again. */
  lemma {:induction false} AcknowledgedIsRaisedExactly(
    key: Key, inputs: seq<Input>, actor: string, at: real, rest: seq<Input>)
    requires key.RunnerKey? && Run(key, inputs).row.Some? && Lasts(key, rest)
    ensures
      var before := Run(key, inputs + [Acknowledge(key, actor, at)]);
      var told := RunFrom(before.row, key, rest).events;
      && Run(key, inputs + [Acknowledge(key, actor, at)] + rest).events == before.events + told
      && (Raises(told) <==> RaiseFollows(Run(key, inputs).row.value, key, rest))
  {
    var acked := inputs + [Acknowledge(key, actor, at)];
    RunAppends(key, inputs, Acknowledge(key, actor, at));
    RunContinues(key, acked, rest);
    RunKeeps(key, inputs);
    RaisedAgainExactly(Run(key, acked).row.value, key, rest);
  }

  // ---- what an acknowledgement keeps quiet, for any key --------------------------------

  /** The alarm lasts: its row is there all along. */
  ghost predicate Alive(row: Option<Row>, key: Key, rest: seq<Input>) {
    forall k: nat | k <= |rest| :: RunFrom(row, key, rest[..k]).row.Some?
  }

  /** The clock never goes back, from `at` on. */
  ghost predicate Forward(rest: seq<Input>, at: real) {
    && (forall k | 0 <= k < |rest| :: at <= rest[k].now)
    && forall j, k | 0 <= j < k < |rest| :: rest[j].now <= rest[k].now
  }

  /** Whatever comes from `at` on, nothing is raised for the key while its alarm lasts. */
  ghost predicate StaysQuiet(row: Option<Row>, key: Key, at: real) {
    forall rest | Alive(row, key, rest) && Forward(rest, at) :: !Raises(RunFrom(row, key, rest).events)
  }

  predicate Final(row: Option<Row>) {
    row.Some? && row.value.raised.Some? && row.value.kind != RunnerPlanned
  }

  lemma {:induction false} FoundFinal(
    row: Option<Row>, key: Key, forge: string, jobs: seq<Job>, sweep: Sweep, threshold: nat, now: real)
    requires Final(row)
    ensures
      var found := Found(row, key, forge, jobs, sweep, threshold, now).outcome;
      Final(found.row) && found.events == []
    decreases |jobs|
  {
    if jobs == [] {
    } else {
      FoundFinal(row, key, forge, jobs[..|jobs| - 1], sweep, threshold, now);
    }
  }

  lemma {:induction false} FinalStep(row: Option<Row>, key: Key, input: Input)
    requires Final(row) && KindFits(key, row)
    ensures
      var after := Step(row, key, input);
      !Raises(after.events) && (after.row.Some? ==> Final(after.row))
  {
    if input.QueueSwept? {
      FoundFinal(row, key, input.forge, input.sweep.jobs, input.sweep, input.threshold, input.now);
    }
  }

  lemma {:induction false} FinalRun(row: Option<Row>, key: Key, rest: seq<Input>)
    requires Final(row) && KindFits(key, row) && Alive(row, key, rest)
    ensures !Raises(RunFrom(row, key, rest).events)
    ensures Final(RunFrom(row, key, rest).row) && KindFits(key, RunFrom(row, key, rest).row)
    decreases |rest|
  {
    if rest == [] {
    } else {
      var init, last := rest[..|rest| - 1], rest[|rest| - 1];
      assert rest[..|rest|] == rest && rest == init + [last];
      forall k: nat | k <= |init| ensures RunFrom(row, key, init[..k]).row.Some? {
        assert init[..k] == rest[..k];
      }
      FinalRun(row, key, init);
      RunFromAppends(row, key, init, last);
      var before := RunFrom(row, key, init);
      FinalStep(before.row, key, last);
      StepFits(before.row, key, last);
      RaisesJoins(before.events, Step(before.row, key, last).events);
    }
  }

  const CALM := Plan(map[], map[], [], {})

  /** A reading that sees just this runner, offline without a reason. */
  function Missing(key: Key, now: real): Input
    requires key.RunnerKey?
  {
    RunnersRead(key.forge, Some([Runner(key.name, key.name, false, [])]), CALM, 120, now)
  }

  lemma {:induction false} MissingIsSeen(key: Key, now: real)
    requires key.RunnerKey?
    ensures SeesUnplanned(Missing(key, now), key)
  {
    var input := Missing(key, now);
    var runners := input.runners.value;
    assert NameOf(runners[0]) == key.name;
    SightsMean(runners, CALM, key.name);
    assert runners[..0] == [];
    assert Listed(runners, {}) == AddSight(map[], runners[0], {});
    var one := Sights(runners, CALM)[key.name];
    assert one.ids == [key.name] && one.ids[1..] == [] && !one.quiet;
    assert PlannedById(CALM.byId, one.ids) == PlannedById(CALM.byId, []);
  }

  /** An input from `at` on after which an unraised watch of any kind is raised. */
  function Later(key: Key, row: Row, at: real): Input {
    var due := row.since as real + 120.0;
    var now := if due < at then at else due;
    match key
    case RunnerKey(_, _) => Missing(key, now)
    case MonitorKey(forge, queue) =>
      if queue then QueueRead(forge, false, 120, now) else RunnersRead(forge, None, CALM, 120, now)
    case QueueKey(forge, _) => Recheck(forge, [], 120, now)
  }

  lemma {:induction false} LaterRaises(key: Key, row: Row, at: real)
    requires KindFits(key, Some(row)) && row.raised.None?
    ensures
      var after := Step(Some(row), key, Later(key, row, at));
      Later(key, row, at).now >= at && after.row.Some? && Raises(after.events)
  {
    var input := Later(key, row, at);
    if key.RunnerKey? {
      MissingIsSeen(key, input.now);
      UnraisedStep(Some(row), key, row.since, input);
    } else {
      var events := Step(Some(row), key, input).events;
      assert events[0].Raised?;
    }
  }

  lemma {:induction false} OneInput(row: Option<Row>, key: Key, input: Input)
    ensures RunFrom(row, key, [input]) == Step(row, key, input)
    ensures row.Some? && Step(row, key, input).row.Some? ==> Alive(row, key, [input])
  {
    var all := [input];
    assert all == [] + [input];
    RunFromAppends(row, key, [], input);
    assert [] + Step(row, key, input).events == Step(row, key, input).events;
    assert all[..0] == [] && all[..1] == all;
  }

  lemma {:induction false} UnraisedIsNotQuiet(key: Key, row: Row, at: real)
    requires KindFits(key, Some(row)) && row.raised.None?
    ensures !StaysQuiet(Some(row), key, at)
  {
    LaterRaises(key, row, at);
    OneInput(Some(row), key, Later(key, row, at));
    assert Alive(Some(row), key, [Later(key, row, at)]);
  }

  lemma {:induction false} PlannedTurns(key: Key, row: Row, at: real)
    requires key.RunnerKey? && StandsPlanned(Some(row))
    ensures
      var turned := Step(Some(row), key, Missing(key, at));
      Unraised(turned.row, Stamp(at)) && turned.events == []
  {
    MissingIsSeen(key, at);
    var detail := OfflineStep(Some(row), key, Missing(key, at));
  }

  lemma {:induction false} ThenRaises(key: Key, row: Option<Row>, since: int)
    requires key.RunnerKey? && Unraised(row, since)
    ensures
      var raised := Step(row, key, Missing(key, since as real + 120.0));
      raised.row.Some? && Raises(raised.events)
  {
    MissingIsSeen(key, since as real + 120.0);
    UnraisedStep(row, key, since, Missing(key, since as real + 120.0));
  }

  lemma {:induction false} PlannedIsNotQuiet(key: Key, row: Row, at: real)
    requires key.RunnerKey? && StandsPlanned(Some(row))
    ensures !StaysQuiet(Some(row), key, at)
  {
    var a, b := Missing(key, at), Missing(key, Stamp(at) as real + 120.0);
    assert a.now == at <= b.now;
    hide Step, Missing, RunFrom, Raises;
    var turned := Step(Some(row), key, a);
    PlannedTurns(key, row, at);
    ThenRaises(key, turned.row, Stamp(at));
    OneInput(Some(row), key, a);
    OneInput(turned.row, key, b);
    RunFromJoins(Some(row), key, [a], [b]);
    assert turned.events + Step(turned.row, key, b).events == Step(turned.row, key, b).events;
    RunOfNothing(Some(row), key);
    var rest := [a] + [b];
    assert rest[..0] == [] && rest[..1] == [a] && rest[..2] == rest;
    assert Alive(Some(row), key, rest) && Forward(rest, at);
  }

  lemma {:induction false} RunOfNothing(row: Option<Row>, key: Key)
    ensures RunFrom(row, key, []) == Outcome(row, [])
  {
  }

  /** Exactly when the book raises an alarm no more once it is acknowledged and while it
      lasts, whatever the key and whatever comes after that moment: when it had been
      raised, and not as planned. */
  lemma {:induction false} AcknowledgementQuietsExactly(key: Key, inputs: seq<Input>, actor: string, at: real)
    requires Run(key, inputs).row.Some?
    ensures
      var row := Run(key, inputs).row.value;
      var acked := Run(key, inputs + [Acknowledge(key, actor, at)]).row;
      StaysQuiet(acked, key, at) <==> (row.raised.Some? && row.kind != RunnerPlanned)
  {
    RunFits(key, inputs);
    RunAppends(key, inputs, Acknowledge(key, actor, at));
    var acked := Run(key, inputs + [Acknowledge(key, actor, at)]).row;
    if acked.value.raised.None? {
      UnraisedIsNotQuiet(key, acked.value, at);
    } else if acked.value.kind == RunnerPlanned {
      PlannedIsNotQuiet(key, acked.value, at);
    } else {
      forall rest | Alive(acked, key, rest) ensures !Raises(RunFrom(acked, key, rest).events) {
        FinalRun(acked, key, rest);
      }
    }
  }

  lemma {:induction false} RunFits(key: Key, inputs: seq<Input>)
    ensures KindFits(key, Run(key, inputs).row)
    decreases |inputs|
  {
    if inputs == [] {
    } else {
      RunFits(key, inputs[..|inputs| - 1]);
      StepFits(Run(key, inputs[..|inputs| - 1]).row, key, inputs[|inputs| - 1]);
    }
  }
}
