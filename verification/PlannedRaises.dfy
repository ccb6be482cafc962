/** Exactly when a planned raise can still be resolved: a runner offline on purpose
    that turns out to be offline for real (dashboard/alarms.py `_turn`, `_resolve`). */
module PlannedRaises {
  import opened Basics
  import opened Alarms
  import opened AlarmRuns

  // ---- what a reading makes of a runner it sees offline ------------------------------

  function ReasonFor(input: Input, key: Key): string {
    if key.RunnerKey? && input.RunnersRead? && input.runners.Some?
       && key.name in Sights(input.runners.value, input.plan)
    then Reason(input.plan, key.name, Sights(input.runners.value, input.plan)[key.name]) else ""
  }

  /** The reading saw the runner offline, and the platform has no reason for it. */
  ghost predicate SeesUnplanned(input: Input, key: Key) {
    SeesOffline(input, key) && ReasonFor(input, key) == ""
  }

  ghost function KindSeen(input: Input, key: Key): Kind {
    if SeesUnplanned(input, key) then RunnerOffline else RunnerPlanned
  }

  lemma {:induction false} OfflineStep(row: Option<Row>, key: Key, input: Input) returns (detail: Detail)
    requires SeesOffline(input, key)
    ensures
      var kind := KindSeen(input, key);
      Step(row, key, input)
        == Watch(Turn(row, kind, input.now), kind, detail, Stamp(input.now), input.threshold, input.now)
  {
    SightsMean(input.runners.value, input.plan, key.name);
    var one := Sights(input.runners.value, input.plan)[key.name];
    detail := Detail(one.labels, "", ReasonFor(input, key));
  }

  // ---- planned raises ---------------------------------------------------------------

  predicate Speaks(events: seq<Event>) {
    exists i | 0 <= i < |events| :: !events[i].Acknowledged?
  }

  /** What input number i made of the key. */
  function At(key: Key, inputs: seq<Input>, i: nat): Outcome
    requires i < |inputs|
  {
    Step(Run(key, inputs[..i]).row, key, inputs[i])
  }

  /** How many inputs there had been when something was last raised or resolved. */
  function SaidAt(key: Key, inputs: seq<Input>): nat {
    if inputs == [] then 0
    else if Speaks(At(key, inputs, |inputs| - 1).events) then |inputs|
    else SaidAt(key, inputs[..|inputs| - 1])
  }

  /** A reading from number `from` on saw the runner offline without a reason. */
  ghost predicate Turned(key: Key, inputs: seq<Input>, from: nat) {
    exists k | from <= k < |inputs| :: SeesUnplanned(inputs[k], key)
  }

  predicate StandsPlanned(row: Option<Row>) {
    row.Some? && row.value.raised.Some? && row.value.kind == RunnerPlanned
  }

  /** The planned raise is the last thing said, by input number SaidAt - 1, and the row
      is there to resolve it unless a turn came since. */
  ghost predicate PlannedInv(key: Key, inputs: seq<Input>) {
    var run, n := Run(key, inputs), SaidAt(key, inputs);
    Standing(run.events) == SaidPlanned ==>
      && 0 < n <= |inputs|
      && (exists e | e in At(key, inputs, n - 1).events :: e.Raised? && e.kind == RunnerPlanned)
      && (StandsPlanned(run.row) <==> !Turned(key, inputs, n))
      && (run.row.Some? && run.row.value.raised.Some? ==> StandsPlanned(run.row))
  }

  lemma {:induction false} SaidAtGrows(key: Key, inputs: seq<Input>, input: Input)
    ensures
      var after := Step(Run(key, inputs).row, key, input);
      && At(key, inputs + [input], |inputs|) == after
      && SaidAt(key, inputs + [input]) == (if Speaks(after.events) then |inputs| + 1 else SaidAt(key, inputs))
    ensures forall i: nat | i < |inputs| :: At(key, inputs + [input], i) == At(key, inputs, i)
  {
    assert (inputs + [input])[..|inputs|] == inputs;
    forall i: nat | i < |inputs| ensures At(key, inputs + [input], i) == At(key, inputs, i) {
      assert (inputs + [input])[..i] == inputs[..i];
    }
  }

  lemma {:induction false} TurnedGrows(key: Key, inputs: seq<Input>, from: nat, input: Input)
    requires from <= |inputs|
    ensures Turned(key, inputs + [input], from) <==> Turned(key, inputs, from) || SeesUnplanned(input, key)
  {
    var all := inputs + [input];
    if Turned(key, inputs, from) {
      var k :| from <= k < |inputs| && SeesUnplanned(inputs[k], key);
      assert SeesUnplanned(all[k], key);
    }
    if SeesUnplanned(input, key) { assert SeesUnplanned(all[|inputs|], key); }
    if k :| from <= k < |all| && SeesUnplanned(all[k], key) {
      assert k < |inputs| ==> SeesUnplanned(inputs[k], key);
    }
  }

  lemma {:induction false} NothingSaid(key: Key, inputs: seq<Input>, input: Input, row: Option<Row>)
    requires PlannedInv(key, inputs) && Run(key, inputs).row == row
    requires
      var after := Step(row, key, input);
      && !Speaks(after.events)
      && Standing(Run(key, inputs).events + after.events) == Standing(Run(key, inputs).events)
      && (SaidAt(key, inputs) <= |inputs| && Standing(Run(key, inputs).events) == SaidPlanned ==>
            && (StandsPlanned(after.row) <==> StandsPlanned(row) && !SeesUnplanned(input, key))
            && (after.row.Some? && after.row.value.raised.Some? ==> StandsPlanned(after.row)))
    ensures PlannedInv(key, inputs + [input])
  {
    RunAppends(key, inputs, input);
    SaidAtGrows(key, inputs, input);
    var n := SaidAt(key, inputs);
    if Standing(Run(key, inputs).events) == SaidPlanned {
      TurnedGrows(key, inputs, n, input);
      var e :| e in At(key, inputs, n - 1).events && e.Raised? && e.kind == RunnerPlanned;
      assert e in At(key, inputs + [input], n - 1).events;
    }
  }

  lemma {:induction false} OneSaid(key: Key, inputs: seq<Input>, input: Input, event: Event)
    requires
      var after := Step(Run(key, inputs).row, key, input);
      && after.events == [event] && !event.Acknowledged?
      && (event.Raised? && event.kind == RunnerPlanned ==> StandsPlanned(after.row))
    ensures PlannedInv(key, inputs + [input])
  {
    RunAppends(key, inputs, input);
    SaidAtGrows(key, inputs, input);
    StandingAppends(Run(key, inputs).events, event);
    var after := Step(Run(key, inputs).row, key, input);
    assert !after.events[0].Acknowledged?;
    assert Speaks(after.events);
    assert event in At(key, inputs + [input], |inputs|).events;
  }

  lemma {:induction false} StandingSame(events: seq<Event>, more: seq<Event>)
    requires |more| <= 1 && !Speaks(more)
    ensures Standing(events + more) == Standing(events)
  {
    if more == [] {
      assert events + more == events;
    } else {
      assert more == [more[0]];
      StandingAppends(events, more[0]);
    }
  }

  lemma {:induction false} PlannedStep(key: Key, inputs: seq<Input>, input: Input)
    requires key.RunnerKey? && PlannedInv(key, inputs)
    ensures PlannedInv(key, inputs + [input])
  {
    hide Standing, SaidAt, Run, PlannedInv;
    RunKeeps(key, inputs);
    var run := Run(key, inputs);
    var row := run.row;
    RunnerStep(row, key, input);
    var after := Step(row, key, input);
    PlannedRow(key, row, input);
    if Speaks(after.events) {
      OneSaid(key, inputs, input, after.events[0]);
    } else {
      StandingSame(run.events, after.events);
      PlannedSaidRow(key, inputs);
      NothingSaid(key, inputs, input, row);
    }
  }

  lemma {:induction false} PlannedSaidRow(key: Key, inputs: seq<Input>)
    requires PlannedInv(key, inputs)
    ensures
      var run := Run(key, inputs);
      Standing(run.events) == SaidPlanned && run.row.Some? && run.row.value.raised.Some? ==> StandsPlanned(run.row)
  {
  }

  /** What one input does to a runner's row, as far as planned raises go. */
  lemma {:induction false} PlannedRow(key: Key, row: Option<Row>, input: Input)
    requires key.RunnerKey? && (row.Some? ==> IsRunnerKind(row.value.kind))
    ensures
      var after := Step(row, key, input);
      && |after.events| <= 1
      && (after.events != [] && after.events[0].Raised? ==> IsRunnerKind(after.events[0].kind))
      && (Speaks(after.events) ==> !after.events[0].Acknowledged?)
      && (Speaks(after.events) && after.events[0].Raised? && after.events[0].kind == RunnerPlanned ==>
            StandsPlanned(after.row))
      && (!Speaks(after.events) && (row.Some? && row.value.raised.Some? ==> StandsPlanned(row)) ==>
            && (StandsPlanned(after.row) <==> StandsPlanned(row) && !SeesUnplanned(input, key))
            && (after.row.Some? && after.row.value.raised.Some? ==> StandsPlanned(after.row)))
  {
    RunnerStep(row, key, input);
    if SeesOffline(input, key) {
      var detail := OfflineStep(row, key, input);
      var kind := KindSeen(input, key);
      var turned := Turn(row, kind, input.now);
      var watched := Watch(turned, kind, detail, Stamp(input.now), input.threshold, input.now);
      assert Step(row, key, input) == watched;
    }
    var events := Step(row, key, input).events;
    if Speaks(events) {
      var i :| 0 <= i < |events| && !events[i].Acknowledged?;
    }
    if events != [] && !events[0].Acknowledged? { assert Speaks(events); }
  }

  lemma {:induction false} PlannedRuns(key: Key, inputs: seq<Input>)
    requires key.RunnerKey?
    ensures PlannedInv(key, inputs)
    decreases |inputs|
  {
    if inputs == [] {
    } else {
      var init := inputs[..|inputs| - 1];
      PlannedRuns(key, init);
      PlannedStep(key, init, inputs[|inputs| - 1]);
      assert init + [inputs[|inputs| - 1]] == inputs;
    }
  }

  /** Exactly when a planned raise that stands can still be resolved. In every run in
      which one is the last thing said of a runner, its row is there, raised and
      planned, if and only if no reading since that raise saw the runner offline
      without a reason; otherwise nothing raised is there at all. */
  lemma {:induction false} PlannedRaiseStandsExactly(key: Key, inputs: seq<Input>)
    requires key.RunnerKey? && Standing(Run(key, inputs).events) == SaidPlanned
    ensures
      var row, n := Run(key, inputs).row, SaidAt(key, inputs);
      && 0 < n <= |inputs|
      && (exists e | e in At(key, inputs, n - 1).events :: e.Raised? && e.kind == RunnerPlanned)
      && (StandsPlanned(row) <==> !Turned(key, inputs, n))
      && (row.Some? && row.value.raised.Some? ==> StandsPlanned(row))
  {
    PlannedRuns(key, inputs);
  }

  /** So a planned raise is resolved by the next reading that sees the runner online or
      gone exactly when no such turn came in between: it is told once, of that raise,
      or never. */
  lemma {:induction false} PlannedRaiseIsResolvedExactly(key: Key, inputs: seq<Input>, input: Input)
    requires key.RunnerKey? && Standing(Run(key, inputs).events) == SaidPlanned
    requires Sees(input, key) && !SeesOffline(input, key)
    ensures
      var after := Step(Run(key, inputs).row, key, input);
      && after.row == None
      && if Turned(key, inputs, SaidAt(key, inputs)) then after.events == []
         else |after.events| == 1 && after.events[0].Resolved? && after.events[0].kind == RunnerPlanned
  {
    RunKeeps(key, inputs);
    PlannedRaiseStandsExactly(key, inputs);
    RunnerStep(Run(key, inputs).row, key, input);
  }

  lemma {:induction false} RunnerSaid(key: Key, inputs: seq<Input>)
    requires key.RunnerKey?
    ensures Standing(Run(key, inputs).events) != SaidOther
    decreases |inputs|
  {
    if inputs == [] {
    } else {
      var init, last := inputs[..|inputs| - 1], inputs[|inputs| - 1];
      RunnerSaid(key, init);
      RunKeeps(key, init);
      PlannedRow(key, Run(key, init).row, last);
      var events := Step(Run(key, init).row, key, last).events;
      if events == [] {
        assert Run(key, init).events + events == Run(key, init).events;
      } else {
        assert events == [events[0]];
        StandingAppends(Run(key, init).events, events[0]);
      }
    }
  }

  /** Whatever raise stands, an online reading resolves it unless it was planned and has
      turned since. */
  lemma {:induction false} ResolvedExactly(key: Key, inputs: seq<Input>, input: Input)
    requires key.RunnerKey? && Sees(input, key) && !SeesOffline(input, key)
    ensures
      var said := Standing(Run(key, inputs).events);
      var stands := said == SaidOffline || (said == SaidPlanned && !Turned(key, inputs, SaidAt(key, inputs)));
      Speaks(Step(Run(key, inputs).row, key, input).events) <==> stands
  {
    RunKeeps(key, inputs);
    var row := Run(key, inputs).row;
    RunnerStep(row, key, input);
    if Standing(Run(key, inputs).events) == SaidPlanned {
      PlannedRaiseIsResolvedExactly(key, inputs, input);
      if !Turned(key, inputs, SaidAt(key, inputs)) { assert !Step(row, key, input).events[0].Acknowledged?; }
    } else {
      RunnerSaid(key, inputs);
      var events := Step(row, key, input).events;
      if events != [] { assert !events[0].Acknowledged?; }
    }
  }
}
