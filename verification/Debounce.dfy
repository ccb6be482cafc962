/** When an alarm comes, measured from the reading its watch began with and from the
    reading that found the runner offline for real (dashboard/alarms.py `_watch`,
    `_turn`). */
module Debounce {
  import opened Basics
  import opened Alarms
  import opened AlarmRuns
  import opened PlannedRaises
  import opened AlarmCourses
  import opened Acknowledgements

  // ---- the debounce of a watch that turns -----------------------------------------------

  /** From the turn on, every reading sees the runner offline without a reason. */
  ghost predicate StaysUnplanned(key: Key, course: seq<Input>) {
    && course != [] && SeesUnplanned(course[0], key)
    && forall k | 0 <= k < |course| && Sees(course[k], key) :: SeesUnplanned(course[k], key)
  }

  /** The last input of the course raises the alarm. */
  predicate RaisesAtEnd(row: Option<Row>, key: Key, course: seq<Input>)
    requires course != []
  {
    var init, last := course[..|course| - 1], course[|course| - 1];
    Raises(Step(RunFrom(row, key, init).row, key, last).events)
  }

  /** ... less than the threshold after the second of the turn. */
  ghost predicate RaisesEarly(row: Option<Row>, key: Key, course: seq<Input>)
    requires course != []
  {
    var last := course[|course| - 1];
    RaisesAtEnd(row, key, course) && last.now - Stamp(course[0].now) as real < Threshold(last) as real
  }

  function Threshold(input: Input): nat {
    if input.Acknowledge? then 0 else input.threshold
  }

  /** Over an unplanned course a watch that began at `since` is raised once, by the
      first reading that is due. */
  lemma {:induction false} CourseRaises(row: Option<Row>, key: Key, since: int, course: seq<Input>)
    requires key.RunnerKey? && Unraised(row, since) && StaysUnplanned(key, course)
    ensures
      var init, last := course[..|course| - 1], course[|course| - 1];
      RaisesAtEnd(row, key, course) <==> Due(last, key, since) && !EverDue(init, key, since)
    ensures EverDue(course, key, since) ==> StandsOffline(RunFrom(row, key, course).row)
    decreases |course|
  {
    var init, last := course[..|course| - 1], course[|course| - 1];
    assert course == init + [last];
    EverDueAppends(init, key, since, last);
    if init != [] {
      assert init[0] == course[0];
      assert forall k | 0 <= k < |init| :: init[k] == course[k];
      CourseRaises(row, key, since, init);
    }
    var before := RunFrom(row, key, init).row;
    if EverDue(init, key, since) {
      FinalStep(before, key, last);
      RunnerStep(before, key, last);
      if SeesOffline(last, key) { var detail := OfflineStep(before, key, last); }
    } else {
      UnraisedRun(row, key, since, init);
      UnraisedStep(before, key, since, last);
    }
  }

  lemma {:induction false} NeverEarly(row: Option<Row>, key: Key, since: int, course: seq<Input>)
    requires key.RunnerKey? && Unraised(row, since) && StaysUnplanned(key, course)
    requires since >= Stamp(course[0].now) || Threshold(course[0]) == 0
    ensures !RaisesEarly(row, key, course)
  {
    CourseRaises(row, key, since, course);
    if since < Stamp(course[0].now) && |course| > 1 {
      assert Due(course[..|course| - 1][0], key, since);
    }
  }

  /** A course on which a watch older than the turn is raised too early. */
  lemma {:induction false} EarlyCourse(row: Option<Row>, key: Key, since: int, turn: Input) returns (course: seq<Input>)
    requires key.RunnerKey? && Unraised(row, since) && SeesUnplanned(turn, key)
    requires since < Stamp(turn.now) && Threshold(turn) > 0
    ensures course != [] && course[0] == turn && StaysUnplanned(key, course) && RaisesEarly(row, key, course)
    ensures course[|course| - 1].now >= turn.now && Threshold(course[|course| - 1]) == Threshold(turn)
  {
    if Due(turn, key, since) {
      course := [turn];
      assert course[..0] == [];
      CourseRaises(row, key, since, course);
    } else {
      var last := RunnersRead(turn.forge, turn.runners, turn.plan, turn.threshold,
          since as real + turn.threshold as real);
      course := [turn, last];
      assert course[..1] == [turn];
      CourseRaises(row, key, since, course);
    }
  }

  /** The alarm follows the debounce from this turn on: on no course is it raised early. */
  ghost predicate Debounced(row: Option<Row>, key: Key, turn: Input) {
    forall course | course != [] && course[0] == turn && StaysUnplanned(key, course) :: !RaisesEarly(row, key, course)
  }

  /** Exactly when a runner whose offline time was planned is given the whole threshold
      once it is offline for real. In every run and for every turn: when its watch
      begins with the turn, because there was none or the planned alarm had been raised;
      or began in the same second (or a clock that went back says so later); or there is
      no threshold. Otherwise there is a course, with the same threshold and a clock that
      never goes back, on which the alarm comes early. */
  lemma {:induction false} DebounceKeptExactly(key: Key, inputs: seq<Input>, turn: Input)
    requires key.RunnerKey? && SeesUnplanned(turn, key)
    requires Run(key, inputs).row.Some? ==> Run(key, inputs).row.value.kind == RunnerPlanned
    ensures
      var row := Run(key, inputs).row;
      var anew := row.None? || row.value.raised.Some? || row.value.since >= Stamp(turn.now);
      Debounced(row, key, turn) <==> (anew || Threshold(turn) == 0)
  {
    var row := Run(key, inputs).row;
    if row.None? || row.value.raised.Some? {
      forall course | course != [] && course[0] == turn && StaysUnplanned(key, course)
        ensures !RaisesEarly(row, key, course)
      {
        BegunCourse(row, key, course);
        NeverEarly(Some(Begun(turn)), key, Stamp(turn.now), course);
      }
    } else if row.value.since >= Stamp(turn.now) || Threshold(turn) == 0 {
      forall course | course != [] && course[0] == turn && StaysUnplanned(key, course)
        ensures !RaisesEarly(row, key, course)
      {
        NeverEarly(row, key, row.value.since, course);
      }
    } else {
      var course := EarlyCourse(row, key, row.value.since, turn);
    }
  }

  lemma {:induction false} BegunCourse(row: Option<Row>, key: Key, course: seq<Input>)
    requires key.RunnerKey? && StaysUnplanned(key, course) && (row.None? || StandsPlanned(row))
    ensures RaisesAtEnd(row, key, course) <==> RaisesAtEnd(Some(Begun(course[0])), key, course)
  {
    var turn, init := course[0], course[..|course| - 1];
    if init == [] {
      SightsMean(turn.runners.value, turn.plan, key.name);
    } else {
      assert init == [turn] + init[1..];
      BeginsAnew(row, key, turn, init[1..]);
    }
  }

  /** Over such a course the alarm comes with the first reading at least the threshold
      after the second its watch began: the turn's own, or the older one. */
  lemma {:induction false} TurnRaisesExactly(key: Key, inputs: seq<Input>, course: seq<Input>)
    requires key.RunnerKey? && StaysUnplanned(key, course) && !StandsOffline(Run(key, inputs).row)
    ensures
      var row := Run(key, inputs).row;
      var since := if row.None? || row.value.raised.Some? then Stamp(course[0].now) else row.value.since;
      var init, last := course[..|course| - 1], course[|course| - 1];
      RaisesAtEnd(row, key, course) <==> Due(last, key, since) && !EverDue(init, key, since)
  {
    RunKeeps(key, inputs);
    var row := Run(key, inputs).row;
    if row.None? || row.value.raised.Some? {
      BegunCourse(row, key, course);
      CourseRaises(Some(Begun(course[0])), key, Stamp(course[0].now), course);
    } else {
      CourseRaises(row, key, row.value.since, course);
    }
  }

  // ---- the reading a watch began with ---------------------------------------------------------

  /** An offline reading that begins a watch. */
  ghost predicate Starts(row: Option<Row>, key: Key, input: Input) {
    SeesOffline(input, key) && (row.None? || (StandsPlanned(row) && SeesUnplanned(input, key)))
  }

  /** Which input began the watch there is. */
  ghost function BeganAt(key: Key, inputs: seq<Input>): nat {
    if inputs == [] then 0
    else if Starts(Run(key, inputs[..|inputs| - 1]).row, key, inputs[|inputs| - 1]) then |inputs| - 1
    else BeganAt(key, inputs[..|inputs| - 1])
  }

  lemma {:induction false} BeganAtMeans(key: Key, inputs: seq<Input>)
    requires key.RunnerKey? && Run(key, inputs).row.Some?
    ensures
      var b := BeganAt(key, inputs);
      b < |inputs| && SeesOffline(inputs[b], key) && Stamp(inputs[b].now) == Run(key, inputs).row.value.since
    decreases |inputs|
  {
    var init, last := inputs[..|inputs| - 1], inputs[|inputs| - 1];
    var row := Run(key, init).row;
    RunKeeps(key, init);
    RunnerStep(row, key, last);
    if SeesOffline(last, key) { var detail := OfflineStep(row, key, last); }
    if !Starts(row, key, last) { BeganAtMeans(key, init); }
  }

  /** Exactly when an alarm is raised, and how early, measured from the reading its watch
      began with, over every run: a reading that sees the runner offline, unless a raise
      stands that it does not turn, raises it once the threshold has passed since the
      whole second of that reading. So it comes more than the threshold less one second
      after the reading itself, and before the full threshold exactly when the missing
      fraction of a second lets it. */
  lemma {:induction false} RaiseTimeExactly(key: Key, inputs: seq<Input>, input: Input)
    requires key.RunnerKey? && SeesOffline(input, key)
    ensures
      var row, all := Run(key, inputs).row, inputs + [input];
      var open := row.None? || row.value.raised.None? || Starts(row, key, input);
      var b := BeganAt(key, all);
      && b < |all| && SeesOffline(all[b], key)
      && var began, threshold := all[b].now, input.threshold as real;
         var raises := Raises(Step(row, key, input).events);
         && (raises <==> open && input.now >= began.Floor as real + threshold)
         && (raises ==> input.now - began > threshold - 1.0)
         && ((raises && input.now - began < threshold) <==>
              (open && began.Floor as real + threshold <= input.now < began + threshold))
  {
    var row, all := Run(key, inputs).row, inputs + [input];
    RunKeeps(key, inputs);
    RunAppends(key, inputs, input);
    RunnerStep(row, key, input);
    var detail := OfflineStep(row, key, input);
    BeganAtMeans(key, all);
    var events := Step(row, key, input).events;
    if events != [] { assert events[0].Raised?; }
  }
}
