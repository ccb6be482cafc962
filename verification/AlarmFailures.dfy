/** One input each where a promise of the alarm book fails. When it fails exactly is said
    in PlannedRaises, Acknowledgements and Debounce. */
module AlarmFailures {
  import opened Basics
  import opened Alarms
  import opened AlarmRuns

  const R := RunnerKey("github", "r")
  const UNPLANNED := Plan(map[], map[], [], {})
  const PLANNED := Plan(map["r" := "stopped by operator"], map[], [], {})

  function Reading(online: bool, plan: Plan, now: real): Input {
    RunnersRead("github", Some([Runner("1", "r", online, [])]), plan, 120, now)
  }

  lemma {:induction false} OneSight(online: bool, plan: Plan)
    requires plan.expected == [] && plan.quiet == {}
    ensures Sights([Runner("1", "r", online, [])], plan) == map["r" := Sight(online, [], ["1"], false)]
  {
    var runners := [Runner("1", "r", online, [])];
    assert runners[..0] == [];
    assert Listed(runners, {}) == AddSight(map[], runners[0], {});
    assert [] + NewLabels([], []) == [] && [] + ["1"] == ["1"];
  }

  lemma {:induction false} ReasonHere(plan: Plan)
    requires plan == UNPLANNED || plan == PLANNED
    ensures Reason(plan, "r", Sight(false, [], ["1"], false)) == (if plan == PLANNED then "stopped by operator" else "")
  {
    assert ["1"][1..] == [];
    assert PlannedById(map[], ["1"]) == PlannedById(map[], []);
  }

  lemma {:induction false} ReadingHere(row: Option<Row>, online: bool, plan: Plan, now: real)
    requires plan == UNPLANNED || plan == PLANNED
    ensures Step(row, R, Reading(online, plan, now)) ==
            if online then Resolve(row, now)
            else
              var reason := if plan == PLANNED then "stopped by operator" else "";
              Watch(Turn(row, OfflineKind(reason), now), OfflineKind(reason), Detail([], "", reason),
                  Stamp(now), 120, now)
  {
    OneSight(online, plan);
    ReasonHere(plan);
  }

  /** When a runner that the platform had offline on purpose turns out to be
      offline for real, its watch starts again only if it had already been
      raised as planned. Otherwise the planned time counts: here the alarm is
      raised one second after the platform let go. */
  lemma {:induction false} PlannedTimeCounts()
    ensures var inputs := [Reading(false, PLANNED, 0.0)] + [Reading(false, PLANNED, 119.0)]
        + [Reading(false, UNPLANNED, 120.0)];
            Run(R, inputs).events == [Raised(RunnerOffline, 0, 120)]
  {
    var i1 := [Reading(false, PLANNED, 0.0)];
    assert i1 == [] + i1;
    RunAppends(R, [], Reading(false, PLANNED, 0.0));
    ReadingHere(None, false, PLANNED, 0.0);
    var i2 := i1 + [Reading(false, PLANNED, 119.0)];
    RunAppends(R, i1, Reading(false, PLANNED, 119.0));
    ReadingHere(Run(R, i1).row, false, PLANNED, 119.0);
    RunAppends(R, i2, Reading(false, UNPLANNED, 120.0));
    ReadingHere(Run(R, i2).row, false, UNPLANNED, 120.0);
  }

  /** A planned raise may never be resolved: once the runner's watch has turned
      and it then comes back within the threshold, nothing says it is over. */
  lemma {:induction false} PlannedRaiseMayStandForever()
    ensures var inputs := [Reading(false, PLANNED, 0.0)] + [Reading(false, PLANNED, 120.0)]
                          + [Reading(false, UNPLANNED, 121.0)] + [Reading(true, UNPLANNED, 122.0)];
            Run(R, inputs) == Outcome(None, [Raised(RunnerPlanned, 0, 120)])
  {
    var i1 := [Reading(false, PLANNED, 0.0)];
    assert i1 == [] + i1;
    RunAppends(R, [], Reading(false, PLANNED, 0.0));
    ReadingHere(None, false, PLANNED, 0.0);
    var i2 := i1 + [Reading(false, PLANNED, 120.0)];
    RunAppends(R, i1, Reading(false, PLANNED, 120.0));
    ReadingHere(Run(R, i1).row, false, PLANNED, 120.0);
    var i3 := i2 + [Reading(false, UNPLANNED, 121.0)];
    RunAppends(R, i2, Reading(false, UNPLANNED, 121.0));
    ReadingHere(Run(R, i2).row, false, UNPLANNED, 121.0);
    RunAppends(R, i3, Reading(true, UNPLANNED, 122.0));
    ReadingHere(Run(R, i3).row, true, UNPLANNED, 122.0);
  }

  /** Times are stored in whole seconds, so a raise may come up to a second
      before the full threshold has passed: here after 119.1 of 120 seconds. */
  lemma {:induction false} RaiseMayBeASecondEarly()
    ensures Step(Run(R, [Reading(false, UNPLANNED, 0.9)]).row, R, Reading(false, UNPLANNED, 120.0)).events
            == [Raised(RunnerOffline, 0, 120)]
  {
    var inputs := [Reading(false, UNPLANNED, 0.9)];
    assert inputs == [] + inputs;
    RunAppends(R, [], Reading(false, UNPLANNED, 0.9));
    ReadingHere(None, false, UNPLANNED, 0.9);
    ReadingHere(Run(R, inputs).row, false, UNPLANNED, 120.0);
  }

  /** Acknowledging a watch that has not been raised yet silences nothing: the raise
      comes all the same, a minute after the acknowledgement. */
  lemma {:induction false} AcknowledgedBeforeItsRaise()
    ensures
      var inputs := [Reading(false, UNPLANNED, 0.0)] + [Acknowledge(R, "admin", 60.0)]
          + [Reading(false, UNPLANNED, 120.0)];
      Run(R, inputs).events == [Acknowledged(RunnerOffline, 0, "admin"), Raised(RunnerOffline, 0, 120)]
  {
    var i1 := [Reading(false, UNPLANNED, 0.0)];
    assert i1 == [] + i1;
    RunAppends(R, [], Reading(false, UNPLANNED, 0.0));
    ReadingHere(None, false, UNPLANNED, 0.0);
    var i2 := i1 + [Acknowledge(R, "admin", 60.0)];
    RunAppends(R, i1, Acknowledge(R, "admin", 60.0));
    RunAppends(R, i2, Reading(false, UNPLANNED, 120.0));
    ReadingHere(Run(R, i2).row, false, UNPLANNED, 120.0);
  }
}
