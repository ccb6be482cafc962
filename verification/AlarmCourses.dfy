/** What becomes of a runner's watch while no reading sees the runner online or gone:
    when it is raised, and when not again (dashboard/alarms.py `_watch`, `_turn`). */
module AlarmCourses {
  import opened Basics
  import opened Alarms
  import opened AlarmRuns
  import opened PlannedRaises

  // ---- while an alarm lasts ------------------------------------------------------------

  predicate Raises(events: seq<Event>) {
    exists i | 0 <= i < |events| :: events[i].Raised?
  }

  /** What a sequence of inputs makes of a key that begins with this row. */
  function RunFrom(row: Option<Row>, key: Key, inputs: seq<Input>): Outcome {
    if inputs == [] then Outcome(row, [])
    else
      var before := RunFrom(row, key, inputs[..|inputs| - 1]);
      var after := Step(before.row, key, inputs[|inputs| - 1]);
      Outcome(after.row, before.events + after.events)
  }

  lemma {:induction false} RunFromAppends(row: Option<Row>, key: Key, inputs: seq<Input>, input: Input)
    ensures
      var before := RunFrom(row, key, inputs);
      var after := Step(before.row, key, input);
      RunFrom(row, key, inputs + [input]) == Outcome(after.row, before.events + after.events)
  {
    assert (inputs + [input])[..|inputs|] == inputs;
  }

  lemma {:induction false} RunFromJoins(row: Option<Row>, key: Key, a: seq<Input>, b: seq<Input>)
    ensures
      var first := RunFrom(row, key, a);
      var then_ := RunFrom(first.row, key, b);
      RunFrom(row, key, a + b) == Outcome(then_.row, first.events + then_.events)
    decreases |b|
  {
    var first := RunFrom(row, key, a);
    if b == [] {
      assert a + b == a && first.events + [] == first.events;
    } else {
      hide Step;
      var init, last := b[..|b| - 1], b[|b| - 1];
      RunFromJoins(row, key, a, init);
      assert a + b == (a + init) + [last];
      RunFromAppends(row, key, a + init, last);
      var mid := RunFrom(first.row, key, init);
      var after := Step(mid.row, key, last);
      Regroup(first.events, mid.events, after.events);
    }
  }

  lemma {:induction false} Regroup(a: seq<Event>, b: seq<Event>, c: seq<Event>)
    ensures (a + b) + c == a + (b + c)
  {
  }

  lemma {:induction false} RunIsRunFrom(key: Key, inputs: seq<Input>)
    ensures Run(key, inputs) == RunFrom(None, key, inputs)
    decreases |inputs|
  {
    if inputs == [] {
    } else {
      RunIsRunFrom(key, inputs[..|inputs| - 1]);
    }
  }

  lemma {:induction false} RunContinues(key: Key, inputs: seq<Input>, rest: seq<Input>)
    ensures
      var before := Run(key, inputs);
      var then_ := RunFrom(before.row, key, rest);
      Run(key, inputs + rest) == Outcome(then_.row, before.events + then_.events)
  {
    RunIsRunFrom(key, inputs);
    RunIsRunFrom(key, inputs + rest);
    RunFromJoins(None, key, inputs, rest);
  }

  lemma {:induction false} RaisesJoins(a: seq<Event>, b: seq<Event>)
    ensures Raises(a + b) <==> Raises(a) || Raises(b)
  {
    if i :| 0 <= i < |a| && a[i].Raised? { assert (a + b)[i].Raised?; }
    if i :| 0 <= i < |b| && b[i].Raised? { assert (a + b)[|a| + i].Raised?; }
    if i :| 0 <= i < |a + b| && (a + b)[i].Raised? {
      assert if i < |a| then a[i].Raised? else b[i - |a|].Raised?;
    }
  }

  /** No reading sees the runner online or gone. */
  ghost predicate Lasts(key: Key, inputs: seq<Input>) {
    forall k | 0 <= k < |inputs| && Sees(inputs[k], key) :: SeesOffline(inputs[k], key)
  }

  /** A reading that sees the runner offline once the threshold has passed since then. */
  ghost predicate Due(input: Input, key: Key, since: int) {
    SeesOffline(input, key) && input.now - since as real >= input.threshold as real
  }

  ghost predicate EverDue(inputs: seq<Input>, key: Key, since: int) {
    exists k | 0 <= k < |inputs| :: Due(inputs[k], key, since)
  }

  predicate Unraised(row: Option<Row>, since: int) {
    row.Some? && IsRunnerKind(row.value.kind) && row.value.raised.None? && row.value.since == since
  }

  predicate StandsOffline(row: Option<Row>) {
    row.Some? && row.value.raised.Some? && row.value.kind == RunnerOffline
  }

  lemma {:induction false} EverDueAppends(inputs: seq<Input>, key: Key, since: int, input: Input)
    ensures EverDue(inputs + [input], key, since) <==> EverDue(inputs, key, since) || Due(input, key, since)
  {
    var all := inputs + [input];
    if k :| 0 <= k < |inputs| && Due(inputs[k], key, since) { assert Due(all[k], key, since); }
    if Due(input, key, since) { assert Due(all[|inputs|], key, since); }
    if k :| 0 <= k < |all| && Due(all[k], key, since) {
      assert k < |inputs| ==> Due(inputs[k], key, since);
    }
  }

  lemma {:induction false} UnraisedStep(row: Option<Row>, key: Key, since: int, input: Input)
    requires key.RunnerKey? && Unraised(row, since) && (Sees(input, key) ==> SeesOffline(input, key))
    ensures
      var after := Step(row, key, input);
      && (Raises(after.events) <==> Due(input, key, since))
      && (!Due(input, key, since) ==> Unraised(after.row, since))
      && (Due(input, key, since) ==>
            after.row.Some? && after.row.value.raised.Some? && after.row.value.kind == KindSeen(input, key))
  {
    RunnerStep(row, key, input);
    if SeesOffline(input, key) {
      var detail := OfflineStep(row, key, input);
    }
    var events := Step(row, key, input).events;
    if Due(input, key, since) { assert events[0].Raised?; }
  }

  /** While it lasts, a watch that began at `since` is raised exactly when a reading
      comes that is due; until then it stays as it is. */
  lemma {:induction false} UnraisedRun(row: Option<Row>, key: Key, since: int, inputs: seq<Input>)
    requires key.RunnerKey? && Unraised(row, since) && Lasts(key, inputs)
    ensures Raises(RunFrom(row, key, inputs).events) <==> EverDue(inputs, key, since)
    ensures !EverDue(inputs, key, since) ==> Unraised(RunFrom(row, key, inputs).row, since)
    decreases |inputs|
  {
    if inputs == [] {
    } else {
      var init, last := inputs[..|inputs| - 1], inputs[|inputs| - 1];
      UnraisedRun(row, key, since, init);
      assert inputs == init + [last];
      EverDueAppends(init, key, since, last);
      var before := RunFrom(row, key, init);
      RaisesJoins(before.events, Step(before.row, key, last).events);
      if !EverDue(init, key, since) {
        UnraisedStep(before.row, key, since, last);
      }
    }
  }

  /** A raise that stands is not told again while it lasts, unless it is planned and a
      reading sees the runner offline without a reason. */
  lemma {:induction false} RaisedRun(row: Option<Row>, key: Key, inputs: seq<Input>)
    requires key.RunnerKey? && Lasts(key, inputs)
    requires StandsOffline(row) || (StandsPlanned(row) && !Turned(key, inputs, 0))
    ensures !Raises(RunFrom(row, key, inputs).events)
    ensures StandsOffline(RunFrom(row, key, inputs).row) <==> StandsOffline(row)
    ensures StandsPlanned(RunFrom(row, key, inputs).row) <==> StandsPlanned(row)
    decreases |inputs|
  {
    if inputs == [] {
    } else {
      var init, last := inputs[..|inputs| - 1], inputs[|inputs| - 1];
      assert inputs == init + [last];
      TurnedGrows(key, init, 0, last);
      RaisedRun(row, key, init);
      var before := RunFrom(row, key, init);
      RaisesJoins(before.events, Step(before.row, key, last).events);
      RunnerStep(before.row, key, last);
      if SeesOffline(last, key) {
        var detail := OfflineStep(before.row, key, last);
      }
    }
  }

  /** The watch a turn begins: at a reading without a reason, with no row or with a
      planned raise standing. */
  function Begun(turn: Input): Row {
    Row(RunnerOffline, Stamp(turn.now), None, None, NOTHING)
  }

  lemma {:induction false} BeginsAnew(row: Option<Row>, key: Key, turn: Input, rest: seq<Input>)
    requires key.RunnerKey? && SeesUnplanned(turn, key) && (row.None? || StandsPlanned(row))
    ensures RunFrom(row, key, [turn] + rest) == RunFrom(Some(Begun(turn)), key, [turn] + rest)
  {
    SameFirst(row, Some(Begun(turn)), key, turn);
    RunFromJoins(row, key, [turn], rest);
    RunFromJoins(Some(Begun(turn)), key, [turn], rest);
  }

  lemma {:induction false} SameFirst(row: Option<Row>, other: Option<Row>, key: Key, turn: Input)
    requires SeesUnplanned(turn, key) && (row.None? || StandsPlanned(row)) && other == Some(Begun(turn))
    ensures RunFrom(row, key, [turn]) == RunFrom(other, key, [turn])
  {
    SightsMean(turn.runners.value, turn.plan, key.name);
    assert [turn][..0] == [];
    assert Step(row, key, turn) == Step(other, key, turn);
  }
}
