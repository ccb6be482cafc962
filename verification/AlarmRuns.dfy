/** What is said about one key over any sequence of observations. */
module AlarmRuns {
  import opened Basics
  import opened Alarms

  // ---- who is in a reading -----------------------------------------------------

  ghost predicate ListedAs(runners: seq<Runner>, name: string) {
    exists i | 0 <= i < |runners| :: NameOf(runners[i]) == name
  }

  ghost predicate OnlineAs(runners: seq<Runner>, name: string) {
    exists i | 0 <= i < |runners| :: NameOf(runners[i]) == name && runners[i].online
  }

  lemma {:induction false} ListedMeans(runners: seq<Runner>, quiet: set<string>, name: string)
    ensures name in Listed(runners, quiet) <==> ListedAs(runners, name)
    ensures name in Listed(runners, quiet) ==> (Listed(runners, quiet)[name].online <==> OnlineAs(runners, name))
    decreases |runners|
  {
    if runners == [] {
    } else {
      var init, last := runners[..|runners| - 1], runners[|runners| - 1];
      ListedMeans(init, quiet, name);
      if ListedAs(init, name) {
        var i :| 0 <= i < |init| && NameOf(init[i]) == name;
        assert NameOf(runners[i]) == name;
      }
      if OnlineAs(init, name) {
        var i :| 0 <= i < |init| && NameOf(init[i]) == name && init[i].online;
        assert NameOf(runners[i]) == name && runners[i].online;
      }
      if ListedAs(runners, name) && NameOf(last) != name {
        var i :| 0 <= i < |runners| && NameOf(runners[i]) == name;
        assert init[i] == runners[i];
      }
      if OnlineAs(runners, name) && !(NameOf(last) == name && last.online) {
        var i :| 0 <= i < |runners| && NameOf(runners[i]) == name && runners[i].online;
        assert init[i] == runners[i];
      }
    }
  }

  lemma {:induction false} ExpectMeans(byName: map<string, Sight>, names: seq<string>, name: string)
    ensures name in Expect(byName, names) <==> name in byName || (name != "" && name in names)
    ensures name in byName ==> Expect(byName, names)[name] == byName[name]
    ensures name in Expect(byName, names) && name !in byName ==> !Expect(byName, names)[name].online
    decreases |names|
  {
    if names == [] {
    } else {
      ExpectMeans(byName, names[..|names| - 1], name);
      assert names == names[..|names| - 1] + [names[|names| - 1]];
    }
  }

  /** A name is present when a registration of it is listed or the platform
      expects it, and online when any registration of it is. */
  lemma {:induction false} SightsMean(runners: seq<Runner>, plan: Plan, name: string)
    ensures var sights := Sights(runners, plan);
            && (name in sights <==> ListedAs(runners, name) || (name != "" && name in plan.expected))
            && (name in sights ==> (sights[name].online <==> OnlineAs(runners, name)))
  {
    ListedMeans(runners, plan.quiet, name);
    ExpectMeans(Listed(runners, plan.quiet), plan.expected, name);
    if OnlineAs(runners, name) {
      var i :| 0 <= i < |runners| && NameOf(runners[i]) == name && runners[i].online;
      assert ListedAs(runners, name);
    }
  }

  // ---- debounce ---------------------------------------------------------------------

  /** A reading of the key's forge that could be read. */
  ghost predicate Sees(input: Input, key: Key) {
    input.RunnersRead? && input.forge == key.forge && input.runners.Some?
  }

  /** ... in which the runner is present and not online. */
  ghost predicate SeesOffline(input: Input, key: Key) {
    && key.RunnerKey? && Sees(input, key)
    && (ListedAs(input.runners.value, key.name) || (key.name != "" && key.name in input.plan.expected))
    && !OnlineAs(input.runners.value, key.name)
  }

  /** Some reading stamped `since` saw the runner offline, and no reading that
      could be read since then saw it otherwise. */
  ghost predicate OfflineSince(inputs: seq<Input>, key: Key, since: int) {
    exists j | 0 <= j < |inputs| :: Begins(inputs, key, since, j)
  }

  ghost predicate Begins(inputs: seq<Input>, key: Key, since: int, j: nat) {
    && j < |inputs| && SeesOffline(inputs[j], key) && Stamp(inputs[j].now) == since
    && forall k | j <= k < |inputs| && Sees(inputs[k], key) :: SeesOffline(inputs[k], key)
  }

  lemma {:induction false} OfflineGrows(inputs: seq<Input>, key: Key, since: int, input: Input)
    requires OfflineSince(inputs, key, since) && (Sees(input, key) ==> SeesOffline(input, key))
    ensures OfflineSince(inputs + [input], key, since)
  {
    var j :| 0 <= j < |inputs| && Begins(inputs, key, since, j);
    assert Begins(inputs + [input], key, since, j);
  }

  lemma {:induction false} OfflineBegins(inputs: seq<Input>, key: Key, input: Input)
    requires SeesOffline(input, key)
    ensures OfflineSince(inputs + [input], key, Stamp(input.now))
  {
    assert Begins(inputs + [input], key, Stamp(input.now), |inputs|);
  }

  /** What one input does to a runner key: only a reading of its forge that saw
      it offline keeps or makes its row, besides an acknowledgement. */
  lemma {:induction false} RunnerStep(row: Option<Row>, key: Key, input: Input)
    requires key.RunnerKey? && (row.Some? ==> IsRunnerKind(row.value.kind))
    ensures var after := Step(row, key, input);
            && (after.row.Some? ==> IsRunnerKind(after.row.value.kind))
            && (Sees(input, key) && !SeesOffline(input, key) ==> after == Resolve(row, input.now))
            && (!Sees(input, key) && !(input.Acknowledge? && input.key == key) ==> after == Outcome(row, []))
            && (!Sees(input, key) && after.row.Some? ==> row.Some? && after.row.value.since == row.value.since)
            && (SeesOffline(input, key) ==>
                  after.row.Some? &&
                  (after.row.value.since == Stamp(input.now)
                      || (row.Some? && after.row.value.since == row.value.since)))
  {
    if Sees(input, key) {
      SightsMean(input.runners.value, input.plan, key.name);
    }
    if input.QueueSwept? {
      FoundOther(row, key, input.forge, input.sweep.jobs, input.sweep, input.threshold, input.now);
    }
  }

  lemma {:induction false} FoundOther(
    row: Option<Row>, key: Key, forge: string, jobs: seq<Job>, sweep: Sweep, threshold: nat, now: real)
    requires !key.QueueKey?
    ensures Found(row, key, forge, jobs, sweep, threshold, now) == Finding(false, false, Outcome(row, []))
    decreases |jobs|
  {
    if jobs == [] {
    } else {
      FoundOther(row, key, forge, jobs[..|jobs| - 1], sweep, threshold, now);
    }
  }

  ghost predicate RowInv(inputs: seq<Input>, key: Key, row: Option<Row>) {
    row.Some? ==> IsRunnerKind(row.value.kind) && OfflineSince(inputs, key, row.value.since)
  }

  lemma {:induction false} RowKeeps(inputs: seq<Input>, key: Key, row: Option<Row>, input: Input)
    requires key.RunnerKey? && RowInv(inputs, key, row)
    ensures RowInv(inputs + [input], key, Step(row, key, input).row)
  {
    RunnerStep(row, key, input);
    var after := Step(row, key, input).row;
    if after.Some? {
      if row.Some? && after.value.since == row.value.since {
        OfflineGrows(inputs, key, row.value.since, input);
      } else {
        OfflineBegins(inputs, key, input);
      }
    }
  }

  lemma {:induction false} RunKeepsRow(key: Key, inputs: seq<Input>)
    requires key.RunnerKey?
    ensures RowInv(inputs, key, Run(key, inputs).row)
    decreases |inputs|
  {
    if inputs == [] {
    } else {
      var init := inputs[..|inputs| - 1];
      RunKeepsRow(key, init);
      RowKeeps(init, key, Run(key, init).row, inputs[|inputs| - 1]);
      assert init + [inputs[|inputs| - 1]] == inputs;
    }
  }

  /** Debounce: an alarm is raised only by a reading that sees the runner not
      online, at least the threshold after the whole second in which its watch
      began, and every reading in between that could be read saw it not online
      too, whatever planned and unplanned turns and acknowledgements occurred. */
  lemma {:induction false} RaisedAfterThreshold(key: Key, inputs: seq<Input>, input: Input, event: Event)
    requires key.RunnerKey? && event in Step(Run(key, inputs).row, key, input).events && event.Raised?
    ensures SeesOffline(input, key)
    ensures event.at == Stamp(input.now) && input.now - event.since as real >= input.threshold as real
    ensures OfflineSince(inputs + [input], key, event.since)
  {
    RunKeepsRow(key, inputs);
    var row := Run(key, inputs).row;
    RunnerStep(row, key, input);
    RowKeeps(inputs, key, row, input);
    if Sees(input, key) { SightsMean(input.runners.value, input.plan, key.name); }
  }

  // ---- alternation -------------------------------------------------------------------

  datatype Said = Nothing | SaidOffline | SaidPlanned | SaidOther

  function Hear(said: Said, event: Event): Said {
    match event
    case Raised(kind, _, _) =>
      if kind == RunnerOffline then SaidOffline else if kind == RunnerPlanned then SaidPlanned else SaidOther
    case Resolved(_, _, _, _) => Nothing
    case Acknowledged(_, _, _) => said
  }

  /** The last thing said about a key that is still standing. */
  function Standing(events: seq<Event>): Said {
    if events == [] then Nothing else Hear(Standing(events[..|events| - 1]), events[|events| - 1])
  }

  /** A record in which an offline raise is followed by nothing but its resolve
      and acknowledgements, and a resolve always answers a raise. */
  ghost predicate Alternates(events: seq<Event>) {
    forall i | 0 <= i < |events| ::
      && (events[i].Raised? ==> Standing(events[..i]) != SaidOffline)
      && (events[i].Resolved? ==> Standing(events[..i]) != Nothing)
  }

  /** The row remembers what stands: an offline raise exactly when one stands,
      and a planned or other raise only when one stands. */
  ghost predicate Agrees(key: Key, row: Option<Row>, said: Said) {
    && (said == SaidOffline <==> row.Some? && row.value.raised.Some? && row.value.kind == RunnerOffline)
    && (row.Some? && row.value.raised.Some? ==> said != Nothing)
    && (key.RunnerKey? && row.Some? ==> IsRunnerKind(row.value.kind))
    && (!key.RunnerKey? && row.Some? ==> !IsRunnerKind(row.value.kind))
  }

  // ---- which raise a resolve answers ---------------------------------------------------

  function HearRaise(raise: Option<Event>, event: Event): Option<Event> {
    match event
    case Raised(_, _, _) => Some(event)
    case Resolved(_, _, _, _) => None
    case Acknowledged(_, _, _) => raise
  }

  /** The raise that stands: the last one, if no resolve came after it. */
  function StandingRaise(events: seq<Event>): Option<Event> {
    if events == [] then None else HearRaise(StandingRaise(events[..|events| - 1]), events[|events| - 1])
  }

  predicate Answers(resolve: Event, raise: Option<Event>)
    requires resolve.Resolved?
  {
    raise == Some(Raised(resolve.kind, resolve.since, resolve.raisedAt))
  }

  /** A record in which every resolve carries the kind, the beginning and the time of
      the raise that stands. */
  ghost predicate Carries(events: seq<Event>) {
    forall i | 0 <= i < |events| && events[i].Resolved? :: Answers(events[i], StandingRaise(events[..i]))
  }

  predicate Remembers(row: Option<Row>, raise: Option<Event>) {
    row.Some? && row.value.raised.Some? ==>
      raise == Some(Raised(row.value.kind, row.value.since, row.value.raised.value))
  }

  lemma {:induction false} CarriesAppends(events: seq<Event>, event: Event)
    requires Carries(events) && (event.Resolved? ==> Answers(event, StandingRaise(events)))
    ensures Carries(events + [event])
    ensures StandingRaise(events + [event]) == HearRaise(StandingRaise(events), event)
  {
    var all := events + [event];
    assert all[..|events|] == events;
    forall i | 0 <= i < |all| && all[i].Resolved? ensures Answers(all[i], StandingRaise(all[..i])) {
      if i < |events| { assert all[..i] == events[..i]; }
    }
  }

  // ---- what every input keeps -----------------------------------------------------------

  lemma {:induction false} StandingAppends(events: seq<Event>, event: Event)
    ensures Standing(events + [event]) == Hear(Standing(events), event)
  {
    assert (events + [event])[..|events|] == events;
  }

  lemma {:induction false} AlternatesAppends(events: seq<Event>, event: Event)
    requires Alternates(events)
    requires event.Raised? ==> Standing(events) != SaidOffline
    requires event.Resolved? ==> Standing(events) != Nothing
    ensures Alternates(events + [event])
  {
    var all := events + [event];
    forall i | 0 <= i < |all|
      ensures all[i].Raised? ==> Standing(all[..i]) != SaidOffline
      ensures all[i].Resolved? ==> Standing(all[..i]) != Nothing
    {
      if i < |events| { assert all[..i] == events[..i]; } else { assert all[..i] == events; }
    }
  }

  /** One key's row and record, joined with what came before. */
  ghost predicate Good(key: Key, row: Option<Row>, events: seq<Event>) {
    && Alternates(events) && Agrees(key, row, Standing(events))
    && Carries(events) && Remembers(row, StandingRaise(events))
  }

  lemma {:induction false} WatchKeeps(
    key: Key, row: Option<Row>, events: seq<Event>, kind: Kind, detail: Detail, since: int, threshold: nat, now: real)
    requires Good(key, row, events)
    requires if key.RunnerKey? then IsRunnerKind(kind) else !IsRunnerKind(kind)
    requires row.Some? && row.value.raised.None? ==> row.value.kind == kind
    ensures var after := Watch(row, kind, detail, since, threshold, now);
            Good(key, after.row, events + after.events)
  {
    var after := Watch(row, kind, detail, since, threshold, now);
    if after.events == [] {
      assert events + [] == events;
    } else {
      StandingAppends(events, after.events[0]);
      AlternatesAppends(events, after.events[0]);
      CarriesAppends(events, after.events[0]);
    }
  }

  lemma {:induction false} ResolveKeeps(key: Key, row: Option<Row>, events: seq<Event>, now: real)
    requires Good(key, row, events)
    ensures var after := Resolve(row, now); Good(key, after.row, events + after.events)
  {
    var after := Resolve(row, now);
    if after.events == [] {
      assert events + [] == events;
    } else {
      StandingAppends(events, after.events[0]);
      AlternatesAppends(events, after.events[0]);
      CarriesAppends(events, after.events[0]);
    }
  }

  lemma {:induction false} TurnKeeps(key: Key, row: Option<Row>, events: seq<Event>, kind: Kind, now: real)
    requires Good(key, row, events) && key.RunnerKey? && IsRunnerKind(kind)
    ensures Good(key, Turn(row, kind, now), events)
    ensures var after := Turn(row, kind, now); after.Some? && after.value.raised.None? ==> after.value.kind == kind
  {
  }

  lemma {:induction false} FoundKeeps(
    key: Key, row: Option<Row>, events: seq<Event>, forge: string, jobs: seq<Job>, sweep: Sweep,
    threshold: nat, now: real)
    requires Good(key, row, events)
    requires row.Some? && key.QueueKey? ==> row.value.kind == JobQueued
    ensures var found := Found(row, key, forge, jobs, sweep, threshold, now).outcome;
            && Good(key, found.row, events + found.events)
            && (found.row.Some? && key.QueueKey? ==> found.row.value.kind == JobQueued)
    decreases |jobs|
  {
    hide Good;
    if jobs == [] {
      assert events + [] == events;
    } else {
      FoundKeeps(key, row, events, forge, jobs[..|jobs| - 1], sweep, threshold, now);
      var before := Found(row, key, forge, jobs[..|jobs| - 1], sweep, threshold, now).outcome;
      var job := jobs[|jobs| - 1];
      if key == QueueKey(forge, job.id) && Waits(job, sweep) {
        WatchKeeps(key, before.row, events + before.events, JobQueued, Detail(job.labels, job.repo, ""),
            SinceOf(job, now), threshold, now);
        var watched := Watch(before.row, JobQueued, Detail(job.labels, job.repo, ""), SinceOf(job, now),
            threshold, now);
        assert events + (before.events + watched.events) == (events + before.events) + watched.events;
      }
    }
  }

  lemma {:induction false} SweepRowKeeps(
    key: Key, found: Finding, events: seq<Event>, forge: string, sweep: Sweep, now: real)
    requires Good(key, found.outcome.row, events + found.outcome.events) && KindFits(key, found.outcome.row)
    ensures var after := SweepRow(found, forge, key, sweep, now);
            Good(key, after.row, events + after.events) && KindFits(key, after.row)
  {
    hide Good;
    var before := found.outcome.events;
    var resolved := Resolve(found.outcome.row, now).events;
    ResolveKeeps(key, found.outcome.row, events + before, now);
    assert events + (before + resolved) == (events + before) + resolved;
  }

  lemma {:induction false} SweepKeeps(key: Key, row: Option<Row>, events: seq<Event>, input: Input)
    requires Good(key, row, events) && KindFits(key, row) && input.QueueSwept?
    ensures var after := Step(row, key, input); Good(key, after.row, events + after.events) && KindFits(key, after.row)
  {
    var found := Found(row, key, input.forge, input.sweep.jobs, input.sweep, input.threshold, input.now);
    if key.QueueKey? {
      FoundKeeps(key, row, events, input.forge, input.sweep.jobs, input.sweep, input.threshold, input.now);
    } else {
      FoundOther(row, key, input.forge, input.sweep.jobs, input.sweep, input.threshold, input.now);
      assert events + [] == events;
    }
    SweepRowKeeps(key, found, events, input.forge, input.sweep, input.now);
  }

  lemma {:induction false} RecheckKeeps(key: Key, row: Option<Row>, events: seq<Event>, input: Input)
    requires Good(key, row, events) && KindFits(key, row) && input.Recheck?
    ensures var after := Step(row, key, input); Good(key, after.row, events + after.events) && KindFits(key, after.row)
  {
    hide Good;
    assert events + [] == events;
    ResolveKeeps(key, row, events, input.now);
    if key.QueueKey? && row.Some? {
      WatchKeeps(key, row, events, JobQueued, row.value.detail, row.value.since, input.threshold, input.now);
    }
  }

  lemma {:induction false} MonitorKeeps(key: Key, row: Option<Row>, events: seq<Event>, input: Input)
    requires Good(key, row, events) && KindFits(key, row) && input.QueueRead?
    ensures var after := Step(row, key, input); Good(key, after.row, events + after.events) && KindFits(key, after.row)
  {
    assert events + [] == events;
    ResolveKeeps(key, row, events, input.now);
    if key.MonitorKey? {
      WatchKeeps(key, row, events, MonitorBlind, NOTHING, Stamp(input.now), input.threshold, input.now);
    }
  }

  lemma {:induction false} AcknowledgeKeeps(key: Key, row: Option<Row>, events: seq<Event>, input: Input)
    requires Good(key, row, events) && KindFits(key, row) && input.Acknowledge?
    ensures var after := Step(row, key, input); Good(key, after.row, events + after.events) && KindFits(key, after.row)
  {
    assert events + [] == events;
    if row.Some? {
      var event := Acknowledged(row.value.kind, row.value.since, input.actor);
      StandingAppends(events, event);
      AlternatesAppends(events, event);
      CarriesAppends(events, event);
    }
  }

  lemma {:induction false} StepKeeps(key: Key, row: Option<Row>, events: seq<Event>, input: Input)
    requires Good(key, row, events) && KindFits(key, row)
    ensures var after := Step(row, key, input); Good(key, after.row, events + after.events) && KindFits(key, after.row)
  {
    match input {
      case RunnersRead(_, _, _, _, _) => ReadKeeps(key, row, events, input);
      case QueueRead(_, _, _, _) => MonitorKeeps(key, row, events, input);
      case QueueSwept(_, _, _, _) => SweepKeeps(key, row, events, input);
      case Recheck(_, _, _, _) => RecheckKeeps(key, row, events, input);
      case Acknowledge(_, _, _) => AcknowledgeKeeps(key, row, events, input);
    }
  }

  lemma {:induction false} ReadKeeps(key: Key, row: Option<Row>, events: seq<Event>, input: Input)
    requires Good(key, row, events) && KindFits(key, row) && input.RunnersRead?
    ensures var after := Step(row, key, input); Good(key, after.row, events + after.events) && KindFits(key, after.row)
  {
    hide Good, Listed, Expect, Reason;
    assert events + [] == events;
    ResolveKeeps(key, row, events, input.now);
    if key.MonitorKey? {
      WatchKeeps(key, row, events, MonitorBlind, NOTHING, Stamp(input.now), input.threshold, input.now);
    } else if key.RunnerKey? && input.runners.Some? {
      var sights := Sights(input.runners.value, input.plan);
      if key.name in sights && !sights[key.name].online {
        var one := sights[key.name];
        var reason := Reason(input.plan, key.name, one);
        var kind := OfflineKind(reason);
        TurnKeeps(key, row, events, kind, input.now);
        WatchKeeps(key, Turn(row, kind, input.now), events, kind, Detail(one.labels, "", reason),
                   Stamp(input.now), input.threshold, input.now);
      }
    }
  }

  lemma {:induction false} RunKeeps(key: Key, inputs: seq<Input>)
    ensures var run := Run(key, inputs); Good(key, run.row, run.events) && KindFits(key, run.row)
    decreases |inputs|
  {
    if inputs == [] {
    } else {
      RunKeeps(key, inputs[..|inputs| - 1]);
      var before := Run(key, inputs[..|inputs| - 1]);
      StepKeeps(key, before.row, before.events, inputs[|inputs| - 1]);
    }
  }

  /** Alternation, over every sequence of observations: after an offline raise
      nothing more is raised for the key until its resolve, and a resolve is
      recorded only while a raise stands. */
  lemma {:induction false} RaisesAlternate(key: Key, inputs: seq<Input>)
    ensures Alternates(Run(key, inputs).events)
  {
    RunKeeps(key, inputs);
  }

  /** A resolve is of the raise that stands: over every sequence of observations it
      carries that raise's kind, beginning and time, so no raise is resolved twice and a
      resolve shares its raise's key in the outbox. */
  lemma {:induction false} ResolvesCarryTheirRaise(key: Key, inputs: seq<Input>)
    ensures Carries(Run(key, inputs).events)
  {
    RunKeeps(key, inputs);
  }

  /** An offline raise stands exactly while its row is there to be resolved. */
  lemma {:induction false} OfflineRaiseIsAnswerable(key: Key, inputs: seq<Input>)
    ensures var run := Run(key, inputs);
            Standing(run.events) == SaidOffline <==>
              run.row.Some? && run.row.value.raised.Some? && run.row.value.kind == RunnerOffline
  {
    RunKeeps(key, inputs);
  }

  // ---- blind readings -----------------------------------------------------------------

  predicate Blind(input: Input) {
    input.RunnersRead? && input.runners.None?
  }

  function Sighted(inputs: seq<Input>): seq<Input> {
    if inputs == [] then []
    else Sighted(inputs[..|inputs| - 1]) + (if Blind(inputs[|inputs| - 1]) then [] else [inputs[|inputs| - 1]])
  }

  /** Deleting the unreadable readings changes no row and no event of any
      runner or queued job; only the monitor's own key can tell. */
  lemma {:induction false} BlindReadingsErasable(key: Key, inputs: seq<Input>)
    requires !key.MonitorKey?
    ensures Run(key, inputs) == Run(key, Sighted(inputs))
    decreases |inputs|
  {
    if inputs == [] {
    } else {
      var init, last := inputs[..|inputs| - 1], inputs[|inputs| - 1];
      BlindReadingsErasable(key, init);
      var before := Run(key, init);
      if Blind(last) {
        assert Step(before.row, key, last) == Outcome(before.row, []);
        assert before.events + [] == before.events;
        assert Sighted(inputs) == Sighted(init);
      } else {
        assert Sighted(inputs)[..|Sighted(inputs)| - 1] == Sighted(init);
      }
    }
  }

  lemma {:induction false} RunAppends(key: Key, inputs: seq<Input>, input: Input)
    ensures var before := Run(key, inputs);
            var after := Step(before.row, key, input);
            Run(key, inputs + [input]) == Outcome(after.row, before.events + after.events)
  {
    assert (inputs + [input])[..|inputs|] == inputs;
  }
}
