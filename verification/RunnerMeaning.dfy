/** What a reading of a forge's runners does to one runner's alarm and to the monitor's own,
    told by registrations, reasons and instants (dashboard/alarms.py `observe_runners`,
    `observe_queue_reader`, `_turn`). */
module RunnerMeaning {
  import opened Basics
  import opened Alarms
  import opened AlarmRuns

  // ---- who is registered under a name ------------------------------------------------

  /** A registration without a name goes by its id. */
  predicate GoesBy(runner: Runner, name: string) {
    name == (if runner.name == "" then runner.id else runner.name)
  }

  ghost predicate Registered(runners: seq<Runner>, name: string) {
    exists i | 0 <= i < |runners| :: GoesBy(runners[i], name)
  }

  ghost predicate SomeOnline(runners: seq<Runner>, name: string) {
    exists i | 0 <= i < |runners| :: GoesBy(runners[i], name) && runners[i].online
  }

  /** The reading has the runner: listed, or expected by the platform. */
  ghost predicate Present(runners: seq<Runner>, plan: Plan, name: string) {
    Registered(runners, name) || (name != "" && name in plan.expected)
  }

  /** What the platform says of the first registration of this name that it knows about. */
  ghost predicate FirstKnown(runners: seq<Runner>, plan: Plan, name: string, i: nat) {
    && i < |runners| && GoesBy(runners[i], name) && runners[i].id in plan.byId
    && forall k | 0 <= k < i && GoesBy(runners[k], name) :: runners[k].id !in plan.byId
  }

  ghost predicate SomeQuiet(runners: seq<Runner>, plan: Plan, name: string) {
    exists i | 0 <= i < |runners| :: GoesBy(runners[i], name) && runners[i].id in plan.quiet
  }

  /** The platform has it offline on purpose: by its name, by a registration of it, or in
      the older list. */
  ghost predicate OnPurpose(runners: seq<Runner>, plan: Plan, name: string) {
    || (name in plan.byName && plan.byName[name] != "")
    || (exists i: nat :: FirstKnown(runners, plan, name, i) && plan.byId[runners[i].id] != "")
    || SomeQuiet(runners, plan, name)
  }

  function IdsOf(runners: seq<Runner>, name: string): seq<string> {
    if runners == [] then []
    else
      var last := runners[|runners| - 1];
      IdsOf(runners[..|runners| - 1], name) + (if GoesBy(last, name) then [last.id] else [])
  }

  lemma {:induction false} NewLabelsMean(had: seq<string>, more: seq<string>)
    ensures forall l :: l in NewLabels(had, more) <==> l in more && l !in had
    decreases |more|
  {
    if more == [] {
    } else {
      NewLabelsMean(had, more[1..]);
      assert more == [more[0]] + more[1..];
    }
  }

  /** Of a listed name a reading keeps every registration's id, in order, all their labels,
      and whether one of them is in the older list. */
  lemma {:induction false} ListedKeeps(runners: seq<Runner>, quiet: set<string>, name: string)
    requires name in Listed(runners, quiet)
    ensures
      var one := Listed(runners, quiet)[name];
      && one.ids == IdsOf(runners, name)
      && (one.quiet <==> exists i | 0 <= i < |runners| :: GoesBy(runners[i], name) && runners[i].id in quiet)
      && forall l :: l in one.labels <==>
           exists i | 0 <= i < |runners| :: GoesBy(runners[i], name) && l in runners[i].labels
    decreases |runners|
  {
    var init, last := runners[..|runners| - 1], runners[|runners| - 1];
    assert runners == init + [last];
    if name in Listed(init, quiet) { ListedKeeps(init, quiet, name); }
    ListedMeans(init, quiet, name);
    NotListed(init, name, quiet);
    if GoesBy(last, name) {
      var had := if name in Listed(init, quiet) then Listed(init, quiet)[name].labels else [];
      NewLabelsMean(had, last.labels);
    }
    assert forall k | 0 <= k < |init| :: runners[k] == init[k];
  }

  lemma {:induction false} NotListed(runners: seq<Runner>, name: string, quiet: set<string>)
    requires !ListedAs(runners, name) <==> name !in Listed(runners, quiet)
    ensures name !in Listed(runners, quiet) ==>
              IdsOf(runners, name) == [] && forall i | 0 <= i < |runners| :: !GoesBy(runners[i], name)
  {
    if !ListedAs(runners, name) {
      forall i | 0 <= i < |runners| ensures !GoesBy(runners[i], name) { assert NameOf(runners[i]) != name; }
      NoIds(runners, name);
    }
  }

  lemma {:induction false} NoIds(runners: seq<Runner>, name: string)
    requires forall i | 0 <= i < |runners| :: !GoesBy(runners[i], name)
    ensures IdsOf(runners, name) == []
    decreases |runners|
  {
    if runners == [] {
    } else {
      NoIds(runners[..|runners| - 1], name);
    }
  }

  lemma {:induction false} ExpectKeeps(byName: map<string, Sight>, names: seq<string>, name: string)
    ensures name in byName ==> name in Expect(byName, names) && Expect(byName, names)[name] == byName[name]
    ensures name !in byName && name in Expect(byName, names) ==>
              Expect(byName, names)[name] == Sight(false, [], [], false)
    decreases |names|
  {
    if names == [] {
    } else {
      ExpectKeeps(byName, names[..|names| - 1], name);
    }
  }

  // ---- reasons ---------------------------------------------------------------------------

  lemma {:induction false} KnownIn(byId: map<string, string>, ids: seq<string>, k: nat)
    requires k < |ids| && ids[k] in byId && forall m | 0 <= m < k :: ids[m] !in byId
    ensures PlannedById(byId, ids) == byId[ids[k]]
    decreases |ids|
  {
    if k > 0 { KnownIn(byId, ids[1..], k - 1); }
  }

  lemma {:induction false} NoneKnown(byId: map<string, string>, ids: seq<string>)
    requires forall m | 0 <= m < |ids| :: ids[m] !in byId
    ensures PlannedById(byId, ids) == ""
    decreases |ids|
  {
    if ids == [] {
    } else {
      NoneKnown(byId, ids[1..]);
    }
  }

  /** Where the ids of a name come from, in order. */
  lemma {:induction false} FirstOfIds(runners: seq<Runner>, plan: Plan, name: string)
    ensures
      var ids := IdsOf(runners, name);
      || ((forall m | 0 <= m < |ids| :: ids[m] !in plan.byId) && forall i: nat :: !FirstKnown(runners, plan, name, i))
      || exists i: nat, k: nat ::
           && FirstKnown(runners, plan, name, i) && k < |ids| && ids[k] == runners[i].id
           && forall m | 0 <= m < k :: ids[m] !in plan.byId
    decreases |runners|
  {
    if runners == [] {
    } else {
      var init, last := runners[..|runners| - 1], runners[|runners| - 1];
      FirstOfIds(init, plan, name);
      var before, ids := IdsOf(init, name), IdsOf(runners, name);
      assert before == ids[..|before|];
      if i: nat, k: nat :|
        FirstKnown(init, plan, name, i) && k < |before| && before[k] == init[i].id
        && forall m | 0 <= m < k :: before[m] !in plan.byId {
        assert FirstKnown(runners, plan, name, i) && ids[k] == runners[i].id;
      } else {
        LastKnown(init, last, plan, name);
        assert init + [last] == runners;
      }
    }
  }

  lemma {:induction false} LastKnown(init: seq<Runner>, last: Runner, plan: Plan, name: string)
    requires forall i: nat :: !FirstKnown(init, plan, name, i)
    requires forall m | 0 <= m < |IdsOf(init, name)| :: IdsOf(init, name)[m] !in plan.byId
    ensures
      var runners := init + [last];
      var ids := IdsOf(runners, name);
      || ((forall m | 0 <= m < |ids| :: ids[m] !in plan.byId) && forall i: nat :: !FirstKnown(runners, plan, name, i))
      || exists i: nat, k: nat ::
           && FirstKnown(runners, plan, name, i) && k < |ids| && ids[k] == runners[i].id
           && forall m | 0 <= m < k :: ids[m] !in plan.byId
  {
    var runners := init + [last];
    var ids := IdsOf(runners, name);
    assert runners[..|init|] == init;
    NoneFirst(init, plan, name);
    assert forall k | 0 <= k < |init| :: init[k] == runners[k];
    if GoesBy(last, name) && last.id in plan.byId {
      assert FirstKnown(runners, plan, name, |init|) && ids[|ids| - 1] == last.id;
    } else {
      forall i: nat ensures !FirstKnown(runners, plan, name, i) {
        if i < |init| { assert !FirstKnown(init, plan, name, i); }
      }
    }
  }

  lemma {:induction false} NoneFirst(runners: seq<Runner>, plan: Plan, name: string)
    requires forall i: nat :: !FirstKnown(runners, plan, name, i)
    ensures forall k | 0 <= k < |runners| && GoesBy(runners[k], name) :: runners[k].id !in plan.byId
    decreases |runners|
  {
    if runners == [] {
    } else {
      var init := runners[..|runners| - 1];
      forall i: nat ensures !FirstKnown(init, plan, name, i) {
        if FirstKnown(init, plan, name, i) { assert FirstKnown(runners, plan, name, i); }
      }
      NoneFirst(init, plan, name);
      assert forall k | 0 <= k < |init| :: init[k] == runners[k];
      assert !FirstKnown(runners, plan, name, |init|);
    }
  }

  /** A runner is offline on purpose exactly as said above. */
  lemma {:induction false} ReasonExactly(runners: seq<Runner>, plan: Plan, name: string)
    requires name in Sights(runners, plan)
    ensures Reason(plan, name, Sights(runners, plan)[name]) != "" <==> OnPurpose(runners, plan, name)
  {
    var one := Sights(runners, plan)[name];
    var ids := IdsOf(runners, name);
    ListedMeans(runners, plan.quiet, name);
    ExpectKeeps(Listed(runners, plan.quiet), plan.expected, name);
    if name in Listed(runners, plan.quiet) {
      ListedKeeps(runners, plan.quiet, name);
    } else {
      NotListed(runners, name, plan.quiet);
    }
    assert one.ids == ids && (one.quiet <==> SomeQuiet(runners, plan, name));
    FirstOfIds(runners, plan, name);
    hide Sights, Listed, Expect, PlannedById, IdsOf, SomeQuiet;
    if i: nat, k: nat :|
      FirstKnown(runners, plan, name, i) && k < |ids| && ids[k] == runners[i].id
      && forall m | 0 <= m < k :: ids[m] !in plan.byId {
      KnownIn(plan.byId, ids, k);
      assert forall i': nat | FirstKnown(runners, plan, name, i') :: i' == i;
    } else {
      NoneKnown(plan.byId, ids);
    }
  }

  // ---- a reading ----------------------------------------------------------------------------

  /** What becomes of the watch of a runner seen offline: begun, called by the other name while
      it has not been raised, begun again when a planned one has been and it is offline for
      real; and raised, once, the threshold after it began. */
  ghost predicate OfflineNow(row: Option<Row>, purpose: bool, threshold: nat, now: real, after: Outcome) {
    var kind := if purpose then RunnerPlanned else RunnerOffline;
    var anew := row.None? || (row.value.raised.Some? && row.value.kind == RunnerPlanned && !purpose);
    var since := if anew then now.Floor else row.value.since;
    var raised := if anew then None else row.value.raised;
    var raises := raised.None? && now - since as real >= threshold as real;
    && after.row.Some? && after.row.value.since == since
    && after.row.value.kind == (if raised.Some? then row.value.kind else kind)
    && after.row.value.raised == (if raises then Some(now.Floor) else raised)
    && after.row.value.acked == (if anew then None else row.value.acked)
    && after.events == (if raises then [Raised(kind, since, now.Floor)] else [])
  }

  predicate Gone(row: Option<Row>, now: real, after: Outcome) {
    && after.row.None?
    && after.events == if row.Some? && row.value.raised.Some?
                       then [Resolved(row.value.kind, row.value.since, row.value.raised.value, now.Floor)] else []
  }

  lemma {:induction false} OfflineMeans(
    row: Option<Row>, name: string, one: Sight, plan: Plan, threshold: nat, now: real)
    requires row.Some? ==> IsRunnerKind(row.value.kind)
    ensures OfflineNow(row, Reason(plan, name, one) != "", threshold, now,
                       SeenOffline(row, name, one, plan, threshold, now))
  {
    hide Reason;
  }

  lemma {:induction false} SightsPresent(runners: seq<Runner>, plan: Plan, name: string)
    ensures name in Sights(runners, plan) <==> Present(runners, plan, name)
    ensures name in Sights(runners, plan) ==> (Sights(runners, plan)[name].online <==> SomeOnline(runners, name))
  {
    SightsMean(runners, plan, name);
    assert forall i | 0 <= i < |runners| :: GoesBy(runners[i], name) <==> NameOf(runners[i]) == name;
  }

  /** What a reading that could be read does to a runner's alarm: gone or online it is over;
      offline it is watched, as planned exactly when the platform has it so on purpose. */
  lemma {:induction false} ReadingMeans(
    row: Option<Row>, forge: string, name: string, runners: seq<Runner>, plan: Plan, threshold: nat, now: real)
    requires row.Some? ==> IsRunnerKind(row.value.kind)
    ensures
      var after := Step(row, RunnerKey(forge, name), RunnersRead(forge, Some(runners), plan, threshold, now));
      && (!Present(runners, plan, name) || SomeOnline(runners, name) ==> Gone(row, now, after))
      && (Present(runners, plan, name) && !SomeOnline(runners, name) ==>
            OfflineNow(row, OnPurpose(runners, plan, name), threshold, now, after))
  {
    hide Sights, Reason, OnPurpose, SeenOffline;
    SightsPresent(runners, plan, name);
    if Present(runners, plan, name) && !SomeOnline(runners, name) {
      ReasonExactly(runners, plan, name);
      OfflineMeans(row, name, Sights(runners, plan)[name], plan, threshold, now);
    }
  }

  /** What an alarm says of a runner seen offline: every label of its registrations. */
  lemma {:induction false} DetailMeans(
    row: Option<Row>, forge: string, name: string, runners: seq<Runner>, plan: Plan, threshold: nat, now: real)
    requires Registered(runners, name) && !SomeOnline(runners, name)
    ensures
      var after := Step(row, RunnerKey(forge, name), RunnersRead(forge, Some(runners), plan, threshold, now));
      && after.row.Some?
      && (forall l :: l in after.row.value.detail.labels <==>
            exists i | 0 <= i < |runners| :: GoesBy(runners[i], name) && l in runners[i].labels)
      && (after.row.value.detail.why != "" <==> OnPurpose(runners, plan, name))
  {
    SightsPresent(runners, plan, name);
    ReasonExactly(runners, plan, name);
    SightsMean(runners, plan, name);
    ListedMeans(runners, plan.quiet, name);
    assert ListedAs(runners, name) by {
      var i :| 0 <= i < |runners| && GoesBy(runners[i], name);
      assert NameOf(runners[i]) == name;
    }
    ExpectKeeps(Listed(runners, plan.quiet), plan.expected, name);
    ListedKeeps(runners, plan.quiet, name);
    hide Listed, Expect, Reason, OnPurpose, Turn;
  }

  /** What readings do to the alarm about the monitor itself: while a forge's runners, or its
      queue, cannot be read it is watched; the first that can be read ends it. */
  lemma {:induction false} MonitorMeans(row: Option<Row>, forge: string, queue: bool, input: Input)
    requires row.Some? ==> row.value.kind == MonitorBlind
    requires if queue then input.QueueRead? else input.RunnersRead?
    requires input.forge == forge
    ensures
      var after := Step(row, MonitorKey(forge, queue), input);
      var readable := if queue then input.readable else input.runners.Some?;
      var since := if row.Some? then row.value.since else input.now.Floor;
      var raised := if row.Some? then row.value.raised else None;
      var raises := raised.None? && input.now - since as real >= input.threshold as real;
      && (readable ==> Gone(row, input.now, after))
      && (!readable ==>
            && after.row.Some? && after.row.value.kind == MonitorBlind && after.row.value.since == since
            && after.row.value.raised == (if raises then Some(input.now.Floor) else raised)
            && after.row.value.acked == (if row.Some? then row.value.acked else None)
            && after.events == (if raises then [Raised(MonitorBlind, since, input.now.Floor)] else []))
  {
  }

  /** A reading of runners touches only the runners of its forge, when it could be read, and
      the monitor of that forge; one of a queue only that queue's monitor. */
  lemma {:induction false} ReadingLeavesOthers(row: Option<Row>, key: Key, input: Input)
    requires KindFits(key, row) && (input.RunnersRead? || input.QueueRead?)
    requires !(input.RunnersRead? && key == MonitorKey(input.forge, false))
    requires !(input.QueueRead? && key == MonitorKey(input.forge, true))
    requires !(input.RunnersRead? && input.runners.Some? && key.RunnerKey? && key.forge == input.forge)
    ensures Step(row, key, input) == Outcome(row, [])
  {
  }

  /** An acknowledgement notes who made it on the alarm it names, if there is one, and tells
      it once; it does nothing else. */
  lemma {:induction false} AcknowledgementMeans(row: Option<Row>, key: Key, named: Key, actor: string, now: real)
    ensures
      var after := Step(row, key, Acknowledge(named, actor, now));
      if key == named && row.Some?
      then after == Outcome(Some(row.value.(acked := Some(actor))),
                            [Acknowledged(row.value.kind, row.value.since, actor)])
      else after == Outcome(row, [])
  {
  }
}
