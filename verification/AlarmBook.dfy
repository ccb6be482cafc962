/** The alarm table and the events waiting to be told, updated in place
    (dashboard/alarms.py `AlarmBook`). Each observation walks runner lists, job
    lists and table rows; what it does to every key is proved to be what Alarms
    says one input does to that key. */
module AlarmBook {
  import opened Basics
  import opened Alarms

  function Get(rows: map<Key, Row>, key: Key): Option<Row> {
    if key in rows then Some(rows[key]) else None
  }

  function Put(rows: map<Key, Row>, key: Key, row: Option<Row>): map<Key, Row> {
    if row.Some? then rows[key := row.value] else rows - {key}
  }

  datatype Told = Told(key: Key, event: Event)

  function Tag(key: Key, events: seq<Event>): (r: seq<Told>)
    requires |events| <= 1
  {
    if events == [] then [] else [Told(key, events[0])]
  }

  function EventsOf(pending: seq<Told>, key: Key): seq<Event> {
    if pending == [] then []
    else EventsOf(pending[..|pending| - 1], key)
         + (if pending[|pending| - 1].key == key then [pending[|pending| - 1].event] else [])
  }

  lemma {:induction false} EventsOfOne(pending: seq<Told>, told: Told, other: Key)
    ensures EventsOf(pending + [told], other) ==
        if other == told.key then EventsOf(pending, other) + [told.event] else EventsOf(pending, other)
  {
    assert (pending + [told])[..|pending|] == pending;
    assert EventsOf(pending, other) + [] == EventsOf(pending, other);
  }

  lemma {:induction false} EventsOfTag(pending: seq<Told>, key: Key, events: seq<Event>, other: Key)
    requires |events| <= 1
    ensures EventsOf(pending + Tag(key, events), other) ==
        if other == key then EventsOf(pending, key) + events else EventsOf(pending, other)
  {
    if events == [] {
      assert pending + Tag(key, events) == pending;
      assert EventsOf(pending, key) + events == EventsOf(pending, key);
    } else {
      EventsOfOne(pending, Told(key, events[0]), other);
      assert [events[0]] == events;
    }
  }

  /** A key's row and what has been recorded about it since the input began. */
  function At(rows: map<Key, Row>, pending: seq<Told>, key: Key): Outcome {
    Outcome(Get(rows, key), EventsOf(pending, key))
  }

  /** Which keys have been dealt with: those are as the input makes them, all
      others as they were. */
  ghost predicate Progress(
    before: map<Key, Row>, rows: map<Key, Row>, pending: seq<Told>, target: Key -> Outcome, dealt: set<Key>)
  {
    forall key ::
      At(rows, pending, key) == if key in dealt then target(key) else Outcome(Get(before, key), [])
  }

  ghost predicate Stepped(before: map<Key, Row>, rows: map<Key, Row>, pending: seq<Told>, input: Input) {
    forall key :: At(rows, pending, key) == Step(Get(before, key), key, input)
  }

  ghost function Target(before: map<Key, Row>, input: Input): Key -> Outcome {
    key => Step(Get(before, key), key, input)
  }

  lemma {:induction false} ProgressStarts(before: map<Key, Row>, target: Key -> Outcome)
    ensures Progress(before, before, [], target, {})
  {
  }

  lemma {:induction false} TargetOfRecheck(before: map<Key, Row>, input: Input, queued: set<Key>)
    requires input.Recheck?
    requires forall key | key in before && before[key].kind == JobQueued && key.forge == input.forge :: key in queued
    ensures forall key | key in queued :: Target(before, input)(key) == OnRecheck(Get(before, key), key, input)
    ensures forall key | key !in queued :: Target(before, input)(key) == Outcome(Get(before, key), [])
  {
  }

  lemma {:induction false} AtOne(rows: map<Key, Row>, pending: seq<Told>, key: Key, after: Outcome, other: Key)
    requires |after.events| <= 1
    ensures var now := At(Put(rows, key, after.row), pending + Tag(key, after.events), other);
            now == if other == key then Outcome(after.row, EventsOf(pending, key) + after.events)
                else At(rows, pending, other)
  {
    EventsOfTag(pending, key, after.events, other);
  }

  lemma {:induction false} ProgressOne(
    before: map<Key, Row>, rows: map<Key, Row>, pending: seq<Told>, target: Key -> Outcome, dealt: set<Key>, key: Key)
    requires Progress(before, rows, pending, target, dealt) && key !in dealt && |target(key).events| <= 1
    ensures Progress(before, Put(rows, key, target(key).row), pending + Tag(key, target(key).events), target,
        dealt + {key})
  {
    var rows', pending' := Put(rows, key, target(key).row), pending + Tag(key, target(key).events);
    assert At(rows, pending, key) == Outcome(Get(before, key), []);
    assert [] + target(key).events == target(key).events;
    forall other
      ensures At(rows', pending', other) ==
          if other in dealt + {key} then target(other) else Outcome(Get(before, other), [])
    {
      AtOne(rows, pending, key, target(key), other);
      assert At(rows, pending, other) == if other in dealt then target(other) else Outcome(Get(before, other), []);
    }
  }

  lemma {:induction false} PutTwice(rows: map<Key, Row>, key: Key, a: Option<Row>, b: Option<Row>)
    ensures Get(Put(rows, key, a), key) == a && Put(Put(rows, key, a), key, b) == Put(rows, key, b)
  {
  }

  /** An input that has dealt with every key it concerns has dealt with all. */
  lemma {:induction false} ProgressAll(
    before: map<Key, Row>, rows: map<Key, Row>, pending: seq<Told>, input: Input, dealt: set<Key>)
    requires Progress(before, rows, pending, Target(before, input), dealt)
    requires forall key | key !in dealt :: Target(before, input)(key) == Outcome(Get(before, key), [])
    ensures Stepped(before, rows, pending, input)
  {
    forall key ensures At(rows, pending, key) == Step(Get(before, key), key, input) {
      assert Target(before, input)(key) == Step(Get(before, key), key, input);
    }
  }

  function KeysOf(forge: string, names: set<string>): set<Key> {
    set name | name in names :: RunnerKey(forge, name)
  }

  /** What a successful reading makes of a name it mentions. */
  function Sighted(row: Option<Row>, name: string, one: Sight, plan: Plan, threshold: nat, now: real): (after: Outcome)
    ensures |after.events| <= 1
  {
    if one.online then Resolve(row, now) else SeenOffline(row, name, one, plan, threshold, now)
  }

  lemma {:induction false} UndealtRow(
    before: map<Key, Row>, rows: map<Key, Row>, pending: seq<Told>, target: Key -> Outcome, dealt: set<Key>, key: Key)
    requires Progress(before, rows, pending, target, dealt) && key !in dealt
    ensures Get(rows, key) == Get(before, key)
  {
    assert At(rows, pending, key) == Outcome(Get(before, key), []);
  }

  class AlarmBook {
    var rows: map<Key, Row>
    var pending: seq<Told>

    constructor ()
      ensures rows == map[] && pending == []
    {
      rows, pending := map[], [];
    }

    ghost predicate Valid()
      reads this
    {
      forall key | key in rows :: KindFits(key, Some(rows[key]))
    }

    method WatchKey(key: Key, kind: Kind, detail: Detail, since: int, threshold: nat, now: real)
      modifies this
      ensures var after := Watch(Get(old(rows), key), kind, detail, since, threshold, now);
              rows == Put(old(rows), key, after.row) && pending == old(pending) + Tag(key, after.events)
    {
      if key !in rows {
        rows := rows[key := Row(kind, since, None, None, detail)];
      } else {
        rows := rows[key := rows[key].(detail := detail)];
      }
      var row := rows[key];
      if row.raised.None? && now - row.since as real >= threshold as real {
        rows := rows[key := row.(raised := Some(Stamp(now)))];
        pending := pending + [Told(key, Raised(kind, row.since, Stamp(now)))];
      }
    }

    method ResolveKey(key: Key, now: real)
      modifies this
      ensures var after := Resolve(Get(old(rows), key), now);
              rows == Put(old(rows), key, after.row) && pending == old(pending) + Tag(key, after.events)
    {
      if key !in rows {
        assert rows - {key} == rows;
        return;
      }
      var row := rows[key];
      rows := rows - {key};
      if row.raised.Some? {
        pending := pending + [Told(key, Resolved(row.kind, row.since, row.raised.value, Stamp(now)))];
      }
    }

    method TurnKey(key: Key, kind: Kind, now: real)
      modifies this`rows
      ensures rows == Put(old(rows), key, Turn(Get(old(rows), key), kind, now))
    {
      if key !in rows || rows[key].kind == kind {
        assert Put(rows, key, Get(rows, key)) == rows;
        return;
      }
      if rows[key].raised.None? {
        rows := rows[key := rows[key].(kind := kind)];
      } else if kind == RunnerOffline {
        rows := rows[key := rows[key].(kind := kind, since := Stamp(now), raised := None, acked := None)];
      } else {
        assert Put(rows, key, Get(rows, key)) == rows;
      }
    }

    /** Everything a reading says about each name, gathered runner by runner. */
    method Gather(runners: seq<Runner>, plan: Plan) returns (byName: map<string, Sight>)
      ensures byName == Sights(runners, plan)
    {
      byName := map[];
      for k := 0 to |runners|
        invariant byName == Listed(runners[..k], plan.quiet)
      {
        assert runners[..k + 1][..k] == runners[..k];
        byName := AddSight(byName, runners[k], plan.quiet);
      }
      assert runners[..|runners|] == runners;
      ghost var listed := byName;
      for k := 0 to |plan.expected|
        invariant byName == Expect(listed, plan.expected[..k])
      {
        assert plan.expected[..k + 1][..k] == plan.expected[..k];
        var name := plan.expected[k];
        if name != "" && name !in byName {
          byName := byName[name := Sight(false, [], [], false)];
        }
      }
      assert plan.expected[..|plan.expected|] == plan.expected;
    }

    /** One name of a successful reading. */
    method ObserveName(key: Key, one: Sight, plan: Plan, threshold: nat, now: real)
      requires key.RunnerKey?
      modifies this
      ensures var after := Sighted(Get(old(rows), key), key.name, one, plan, threshold, now);
              rows == Put(old(rows), key, after.row) && pending == old(pending) + Tag(key, after.events)
    {
      if one.online {
        ResolveKey(key, now);
      } else {
        var reason := Reason(plan, key.name, one);
        var kind := OfflineKind(reason);
        ghost var was := rows;
        TurnKey(key, kind, now);
        ghost var turned := Turn(Get(was, key), kind, now);
        ghost var after := Watch(turned, kind, Detail(one.labels, "", reason), Stamp(now), threshold, now);
        PutTwice(was, key, turned, after.row);
        WatchKey(key, kind, Detail(one.labels, "", reason), Stamp(now), threshold, now);
      }
    }

    /** Every name of a successful reading, in any order. */
    method ObserveNames(forge: string, byName: map<string, Sight>, plan: Plan, threshold: nat, now: real,
                        ghost before: map<Key, Row>, ghost target: Key -> Outcome, ghost dealt: set<Key>)
      returns (seen: set<Key>)
      requires Progress(before, rows, pending, target, dealt) && dealt !! KeysOf(forge, byName.Keys)
      requires forall name | name in byName ::
                 target(RunnerKey(forge, name))
                     == Sighted(Get(before, RunnerKey(forge, name)), name, byName[name], plan, threshold, now)
      modifies this
      ensures seen == KeysOf(forge, byName.Keys)
      ensures Progress(before, rows, pending, target, dealt + seen)
    {
      seen := {};
      var names := byName.Keys;
      assert dealt + seen == dealt;
      while names != {}
        invariant names <= byName.Keys
        invariant seen == KeysOf(forge, byName.Keys - names)
        invariant Progress(before, rows, pending, target, dealt + seen)
        decreases names
      {
        var name :| name in names;
        var key := RunnerKey(forge, name);
        ProgressOne(before, rows, pending, target, dealt + seen, key);
        UndealtRow(before, rows, pending, target, dealt + seen, key);
        assert dealt + seen + {key} == dealt + (seen + {key});
        names := names - {name};
        seen := seen + {key};
        ObserveName(key, byName[name], plan, threshold, now);
      }
    }

    /** Rows of runners that a successful reading no longer mentions. */
    method RemoveGone(
      gone: set<Key>, now: real, ghost before: map<Key, Row>, ghost target: Key -> Outcome, ghost dealt: set<Key>)
      requires Progress(before, rows, pending, target, dealt) && gone !! dealt
      requires forall key | key in gone :: target(key) == Resolve(Get(before, key), now)
      modifies this
      ensures Progress(before, rows, pending, target, dealt + gone)
    {
      var left := gone;
      assert dealt + (gone - left) == dealt;
      while left != {}
        invariant left <= gone && Progress(before, rows, pending, target, dealt + (gone - left))
        decreases left
      {
        var key :| key in left;
        ProgressOne(before, rows, pending, target, dealt + (gone - left), key);
        assert dealt + (gone - left) + {key} == dealt + (gone - (left - {key}));
        left := left - {key};
        ResolveKey(key, now);
      }
      assert dealt + (gone - left) == dealt + gone;
    }

    /** A reading that could be read, once the monitor's own key is dealt with. */
    method ObserveListed(
      forge: string, runners: seq<Runner>, plan: Plan, threshold: nat, now: real, ghost before: map<Key, Row>)
      requires forall key | key in before :: KindFits(key, Some(before[key]))
      requires Progress(before, rows, pending, Target(before, RunnersRead(forge, Some(runners), plan, threshold, now)),
                        {MonitorKey(forge, false)})
      modifies this
      ensures Stepped(before, rows, pending, RunnersRead(forge, Some(runners), plan, threshold, now))
    {
      hide Progress, Stepped, KindFits;
      ghost var input := RunnersRead(forge, Some(runners), plan, threshold, now);
      ghost var target, monitor := Target(before, input), MonitorKey(forge, false);
      var byName := Gather(runners, plan);
      TargetOfNames(before, input);
      var seen := ObserveNames(forge, byName, plan, threshold, now, before, target, {monitor});
      var gone := set key | key in rows && IsRunnerKind(rows[key].kind) && key.forge == forge && key !in seen;
      UnseenRows(before, rows, pending, target, {monitor} + seen);
      MonitorStays(before, rows, pending, input, {monitor} + seen);
      TargetOfRest(before, input, seen, gone);
      RemoveGone(gone, now, before, target, {monitor} + seen);
      ProgressAll(before, rows, pending, input, {monitor} + seen + gone);
    }

    method ObserveRunners(forge: string, runners: Option<seq<Runner>>, plan: Plan, threshold: nat, now: real)
      requires Valid()
      modifies this
      ensures Valid()
      ensures Stepped(old(rows), rows, pending, RunnersRead(forge, runners, plan, threshold, now))
    {
      pending := [];
      ghost var before, input := rows, RunnersRead(forge, runners, plan, threshold, now);
      var monitor := MonitorKey(forge, false);
      TargetOfMonitor(before, input);
      ProgressOne(before, rows, pending, Target(before, input), {}, monitor);
      assert {} + {monitor} == {monitor};
      if runners.None? {
        WatchKey(monitor, MonitorBlind, NOTHING, Stamp(now), threshold, now);
        TargetOfBlind(before, input);
        ProgressAll(before, rows, pending, input, {monitor});
      } else {
        ResolveKey(monitor, now);
        ObserveListed(forge, runners.value, plan, threshold, now, before);
      }
      SteppedFits(before, rows, pending, input);
    }

    method ObserveQueueReader(forge: string, readable: bool, threshold: nat, now: real)
      requires Valid()
      modifies this
      ensures Valid()
      ensures Stepped(old(rows), rows, pending, QueueRead(forge, readable, threshold, now))
    {
      pending := [];
      ghost var before, input := rows, QueueRead(forge, readable, threshold, now);
      var monitor := MonitorKey(forge, true);
      ProgressOne(before, rows, pending, Target(before, input), {}, monitor);
      if readable {
        ResolveKey(monitor, now);
      } else {
        WatchKey(monitor, MonitorBlind, NOTHING, Stamp(now), threshold, now);
      }
      ProgressAll(before, rows, pending, input, {} + {monitor});
      SteppedFits(before, rows, pending, input);
    }

    /** `acknowledge`; false when there is no such alarm. */
    method AcknowledgeKey(key: Key, actor: string, now: real) returns (known: bool)
      requires Valid()
      modifies this
      ensures Valid() && known == (key in old(rows))
      ensures Stepped(old(rows), rows, pending, Acknowledge(key, actor, now))
    {
      pending := [];
      ghost var before, input := rows, Acknowledge(key, actor, now);
      known := key in rows;
      if known {
        ProgressOne(before, rows, pending, Target(before, input), {}, key);
        var row := rows[key];
        rows := rows[key := row.(acked := Some(actor))];
        pending := pending + [Told(key, Acknowledged(row.kind, row.since, actor))];
        ProgressAll(before, rows, pending, input, {} + {key});
      } else {
        ProgressAll(before, rows, pending, input, {});
      }
      SteppedFits(before, rows, pending, input);
    }

    /** Between sweeps: every queued job against the runners online now. */
    method RecheckQueue(forge: string, online: seq<seq<string>>, threshold: nat, now: real)
      requires Valid()
      modifies this
      ensures Valid()
      ensures Stepped(old(rows), rows, pending, Recheck(forge, online, threshold, now))
    {
      hide Progress, Stepped, Target;
      pending := [];
      ghost var before, input := rows, Recheck(forge, online, threshold, now);
      ghost var target := Target(before, input);
      var queued := set key | key in rows && rows[key].kind == JobQueued && key.forge == forge;
      TargetOfRecheck(before, input, queued);
      ProgressStarts(before, target);
      var left := queued;
      assert queued - left == {};
      while left != {}
        invariant left <= queued && Progress(before, rows, pending, target, queued - left)
        decreases left
      {
        var key :| key in left;
        UndealtRow(before, rows, pending, target, queued - left, key);
        assert target(key) == OnRecheck(Get(before, key), key, input);
        ProgressOne(before, rows, pending, target, queued - left, key);
        assert queued - left + {key} == queued - (left - {key});
        left := left - {key};
        var row := rows[key];
        if CanRun(row.detail.labels, online) {
          ResolveKey(key, now);
        } else {
          WatchKey(key, JobQueued, row.detail, row.since, threshold, now);
        }
      }
      assert queued - left == queued;
      ProgressAll(before, rows, pending, input, queued);
      SteppedFits(before, rows, pending, input);
    }

    /** The jobs of one sweep, in order. */
    method WatchJobs(forge: string, sweep: Sweep, threshold: nat, now: real, ghost before: map<Key, Row>)
      returns (waiting: set<Key>, taken: set<Key>)
      requires rows == before && pending == []
      modifies this
      ensures Finds(before, rows, pending, waiting, taken, forge, sweep.jobs, sweep, threshold, now)
    {
      waiting, taken := {}, {};
      for k := 0 to |sweep.jobs|
        invariant Finds(before, rows, pending, waiting, taken, forge, sweep.jobs[..k], sweep, threshold, now)
      {
        ghost var jobs := sweep.jobs[..k];
        assert sweep.jobs[..k + 1] == jobs + [sweep.jobs[k]];
        var job := sweep.jobs[k];
        var key := QueueKey(forge, job.id);
        FindsOne(before, rows, pending, waiting, taken, forge, jobs, job, sweep, threshold, now);
        if !Hosted(job.labels, sweep.known) {
          if CanRun(job.labels, sweep.online) {
            taken := taken + {key};
          } else {
            waiting := waiting + {key};
            WatchKey(key, JobQueued, Detail(job.labels, job.repo, ""), SinceOf(job, now), threshold, now);
          }
        }
      }
      assert sweep.jobs[..|sweep.jobs|] == sweep.jobs;
    }

    /** One complete sweep of a forge's queue. */
    method ObserveQueue(forge: string, sweep: Sweep, threshold: nat, now: real)
      requires Valid()
      modifies this
      ensures Valid()
      ensures Stepped(old(rows), rows, pending, QueueSwept(forge, sweep, threshold, now))
    {
      pending := [];
      ghost var before, input := rows, QueueSwept(forge, sweep, threshold, now);
      var waiting, taken := WatchJobs(forge, sweep, threshold, now, before);
      ghost var mid, told := rows, pending;
      var over := set key | key in rows && rows[key].kind == JobQueued && key.forge == forge && key !in waiting
                            && (key in taken || rows[key].detail.repo in sweep.swept
                                || (sweep.listed.Some? && rows[key].detail.repo !in sweep.listed.value));
      EndJobs(over, now);
      SweepIsStep(before, mid, told, rows, pending, waiting, taken, over, forge, sweep, threshold, now);
      SteppedFits(before, rows, pending, input);
    }

    /** Resolve each of these keys. */
    method EndJobs(over: set<Key>, now: real)
      modifies this
      ensures Ended(old(rows), old(pending), rows, pending, over, now)
    {
      ghost var mid, told := rows, pending;
      var left := over;
      assert over - left == {};
      while left != {}
        invariant left <= over && Ended(mid, told, rows, pending, over - left, now)
        decreases left
      {
        var key :| key in left;
        assert At(rows, pending, key) == At(mid, told, key);
        forall other { AtOne(rows, pending, key, Resolve(Get(mid, key), now), other); }
        left := left - {key};
        ResolveKey(key, now);
      }
      assert over - left == over;
    }
  }

  ghost predicate Ended(
    mid: map<Key, Row>, told: seq<Told>, rows: map<Key, Row>, pending: seq<Told>, over: set<Key>, now: real)
  {
    forall key ::
      At(rows, pending, key) ==
          if key in over then Outcome(None, EventsOf(told, key) + Resolve(Get(mid, key), now).events)
                                else At(mid, told, key)
  }

  lemma {:induction false} SweepIsStep(
    before: map<Key, Row>, mid: map<Key, Row>, told: seq<Told>, rows: map<Key, Row>, pending: seq<Told>,
    waiting: set<Key>, taken: set<Key>, over: set<Key>, forge: string, sweep: Sweep, threshold: nat, now: real)
    requires Finds(before, mid, told, waiting, taken, forge, sweep.jobs, sweep, threshold, now)
    requires Ended(mid, told, rows, pending, over, now)
    requires forall key :: key in over <==>
               key in mid && mid[key].kind == JobQueued && key.forge == forge && key !in waiting
               && (key in taken || mid[key].detail.repo in sweep.swept
                   || (sweep.listed.Some? && mid[key].detail.repo !in sweep.listed.value))
    ensures Stepped(before, rows, pending, QueueSwept(forge, sweep, threshold, now))
  {
    forall key ensures At(rows, pending, key) == Step(Get(before, key), key, QueueSwept(forge, sweep, threshold, now)) {
      assert Finding(key in waiting, key in taken, At(mid, told, key))
          == Found(Get(before, key), key, forge, sweep.jobs, sweep, threshold, now);
    }
  }

  /** What walking the first jobs of a sweep has found, for every key. */
  ghost predicate Finds(
    before: map<Key, Row>, rows: map<Key, Row>, pending: seq<Told>, waiting: set<Key>, taken: set<Key>, forge: string,
    jobs: seq<Job>, sweep: Sweep, threshold: nat, now: real)
  {
    forall key ::
      Finding(key in waiting, key in taken, At(rows, pending, key))
          == Found(Get(before, key), key, forge, jobs, sweep, threshold, now)
  }

  lemma {:induction false} FindsOne(
    before: map<Key, Row>, rows: map<Key, Row>, pending: seq<Told>, waiting: set<Key>, taken: set<Key>, forge: string,
    jobs: seq<Job>, job: Job, sweep: Sweep, threshold: nat, now: real)
    requires Finds(before, rows, pending, waiting, taken, forge, jobs, sweep, threshold, now)
    ensures var key := QueueKey(forge, job.id);
            var after := Watch(Get(rows, key), JobQueued, Detail(job.labels, job.repo, ""), SinceOf(job, now),
                threshold, now);
            && (Taken(job, sweep) ==>
                  Finds(before, rows, pending, waiting, taken + {key}, forge, jobs + [job], sweep, threshold, now))
            && (Waits(job, sweep) ==>
                  Finds(before, Put(rows, key, after.row), pending + Tag(key, after.events), waiting + {key}, taken,
                        forge, jobs + [job], sweep, threshold, now))
            && (!Taken(job, sweep) && !Waits(job, sweep) ==>
                  Finds(before, rows, pending, waiting, taken, forge, jobs + [job], sweep, threshold, now))
  {
    var key := QueueKey(forge, job.id);
    var after := Watch(Get(rows, key), JobQueued, Detail(job.labels, job.repo, ""), SinceOf(job, now), threshold, now);
    assert (jobs + [job])[..|jobs|] == jobs;
    forall other { AtOne(rows, pending, key, after, other); }
  }

  /** The invariant of the table follows from what each key's row became. */
  lemma {:induction false} SteppedFits(before: map<Key, Row>, rows: map<Key, Row>, pending: seq<Told>, input: Input)
    requires Stepped(before, rows, pending, input)
    requires forall key | key in before :: KindFits(key, Some(before[key]))
    ensures forall key | key in rows :: KindFits(key, Some(rows[key]))
  {
    forall key | key in rows ensures KindFits(key, Some(rows[key])) {
      StepFits(Get(before, key), key, input);
      assert At(rows, pending, key) == Step(Get(before, key), key, input);
    }
  }

  /** What a key has been told about over several observations, in order. */
  function Record(tolds: seq<seq<Told>>, key: Key): seq<Event> {
    if tolds == [] then [] else Record(tolds[..|tolds| - 1], key) + EventsOf(tolds[|tolds| - 1], key)
  }

  /** A book that starts empty and makes one observation after another does to
      every key what Run says the inputs do to it. */
  lemma {:induction false} BookIsRun(books: seq<map<Key, Row>>, tolds: seq<seq<Told>>, inputs: seq<Input>, key: Key)
    requires |books| == |inputs| + 1 && |tolds| == |inputs| && books[0] == map[]
    requires forall i | 0 <= i < |inputs| :: Stepped(books[i], books[i + 1], tolds[i], inputs[i])
    ensures Run(key, inputs) == Outcome(Get(books[|inputs|], key), Record(tolds, key))
    decreases |inputs|
  {
    if inputs == [] {
    } else {
      var n := |inputs| - 1;
      BookIsRun(books[..n + 1], tolds[..n], inputs[..n], key);
      assert Stepped(books[n], books[n + 1], tolds[n], inputs[n]);
      assert At(books[n + 1], tolds[n], key) == Step(Get(books[n], key), key, inputs[n]);
    }
  }

  /** The monitor's own row is never mistaken for a runner's. */
  lemma {:induction false} MonitorStays(
    before: map<Key, Row>, rows: map<Key, Row>, pending: seq<Told>, input: Input, dealt: set<Key>)
    requires input.RunnersRead? && input.runners.Some? && MonitorKey(input.forge, false) in dealt
    requires forall key | key in before :: KindFits(key, Some(before[key]))
    requires Progress(before, rows, pending, Target(before, input), dealt)
    ensures var monitor := MonitorKey(input.forge, false); monitor !in rows
  {
    var monitor := MonitorKey(input.forge, false);
    assert At(rows, pending, monitor) == Target(before, input)(monitor);
    TargetOfMonitor(before, input);
  }

  lemma {:induction false} TargetOfMonitor(before: map<Key, Row>, input: Input)
    requires input.RunnersRead?
    ensures var key := MonitorKey(input.forge, false);
            Target(before, input)(key) == Monitor(Get(before, key), input.runners.Some?, input.threshold, input.now)
  {
  }

  lemma {:induction false} TargetOfBlind(before: map<Key, Row>, input: Input)
    requires input.RunnersRead? && input.runners.None?
    ensures forall key | key != MonitorKey(input.forge, false) ::
              Target(before, input)(key) == Outcome(Get(before, key), [])
  {
  }

  lemma {:induction false} TargetOfNames(before: map<Key, Row>, input: Input)
    requires input.RunnersRead? && input.runners.Some?
    ensures var sights := Sights(input.runners.value, input.plan);
            forall name | name in sights ::
              Target(before, input)(RunnerKey(input.forge, name))
              == Sighted(Get(before, RunnerKey(input.forge, name)), name, sights[name], input.plan,
                  input.threshold, input.now)
  {
  }

  /** Keys a successful reading does not mention: runner rows of its forge are
      resolved, and nothing else is touched. */
  lemma {:induction false} TargetOfRest(before: map<Key, Row>, input: Input, seen: set<Key>, gone: set<Key>)
    requires input.RunnersRead? && input.runners.Some?
    requires forall key | key in before :: KindFits(key, Some(before[key]))
    requires seen == KeysOf(input.forge, Sights(input.runners.value, input.plan).Keys)
    requires forall key | key != MonitorKey(input.forge, false) && key !in seen ::
               key in gone <==> key in before && IsRunnerKind(before[key].kind) && key.forge == input.forge
    requires MonitorKey(input.forge, false) !in gone && gone !! seen
    ensures forall key | key in gone :: Target(before, input)(key) == Resolve(Get(before, key), input.now)
    ensures forall key | key != MonitorKey(input.forge, false) && key !in seen && key !in gone ::
              Target(before, input)(key) == Outcome(Get(before, key), [])
  {
    forall key | key != MonitorKey(input.forge, false) && key !in seen
      ensures Target(before, input)(key) ==
          if key in gone then Resolve(Get(before, key), input.now) else Outcome(Get(before, key), [])
    {
      if key in before { assert KindFits(key, Some(before[key])); }
    }
  }

  lemma {:induction false} UnseenRows(
    before: map<Key, Row>, rows: map<Key, Row>, pending: seq<Told>, target: Key -> Outcome, dealt: set<Key>)
    requires Progress(before, rows, pending, target, dealt)
    ensures forall key | key !in dealt :: Get(rows, key) == Get(before, key)
  {
    forall key | key !in dealt ensures Get(rows, key) == Get(before, key) {
      UndealtRow(before, rows, pending, target, dealt, key);
    }
  }
}
