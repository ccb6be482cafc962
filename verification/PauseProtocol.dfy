/** Every interleaving of storage maintenance (`observed_work`: pause, work,
    unpause, also when pause raises), heartbeats reconciling the watched
    runners, and source threads that become ready, fail, or exit. */
module PauseProtocol {
  import opened Basics
  import opened SourceRegistry

  /** Where one maintenance call is: stopping the source it captured, past a
      pause that returned, or past one that raised. */
  datatype Phase = Stopping | Returned | Raised

  datatype Lease = Lease(runner: string, captured: Option<Source>, phase: Phase)

  datatype System = System(
    registry: Registry,
    leases: map<nat, Lease>,     // maintenance calls between pause and unpause
    alive: set<Source>,          // source threads still running
    signalled: set<Source>)      // sources told to stop

  datatype Step =
    | PauseBegin(call: nat, runner: string)
    | PauseEnd(call: nat)
    | Finish(call: nat)
    | Heartbeat(owned: set<string>)
    | Ready(source: Source)
    | Fail(source: Source)
    | Exit(source: Source)
    | StopRemoved(source: Source)

  const START := System(Registry(map[], map[], {}, 0), map[], {}, {})

  function Begin(s: System, call: nat, runner: string): System {
    if call in s.leases then s
    else
      var captured := Get(s.registry.sources, runner);
      s.(registry := PauseMark(s.registry, runner),
         leases := s.leases[call := Lease(runner, captured, if captured.Some? then Stopping else Returned)],
         signalled := if captured.Some? then s.signalled + {captured.value} else s.signalled)
  }

  /** The bounded wait for the captured source is over. */
  function End(s: System, call: nat): System {
    if call !in s.leases || s.leases[call].phase != Stopping || s.leases[call].captured.None? then s
    else
      var lease := s.leases[call];
      if lease.captured.value in s.alive
      then s.(leases := s.leases[call := lease.(phase := Raised)])
      else s.(leases := s.leases[call := lease.(phase := Returned)],
              registry := PauseDetach(s.registry, lease.runner, lease.captured.value))
  }

  function Apply(s: System, step: Step): System {
    match step
    case PauseBegin(call, runner) => Begin(s, call, runner)
    case PauseEnd(call) => End(s, call)
    case Finish(call) =>
      if call !in s.leases || s.leases[call].phase == Stopping then s
      else s.(leases := s.leases - {call}, registry := Unpause(s.registry, s.leases[call].runner))
    case Heartbeat(owned) =>
      s.(registry := Reconcile(s.registry, owned, s.alive),
         alive := s.alive + set rid | rid in SourceRegistry.Started(s.registry, owned, s.alive)
                              :: Source(rid, s.registry.clock))
    case Ready(source) =>
      if source !in s.alive then s
      else s.(registry := MarkReady(s.registry, source, source in s.signalled))
    case Fail(source) =>
      if source !in s.alive then s else s.(registry := SourceRegistry.Failed(s.registry, source))
    case Exit(source) => s.(alive := s.alive - {source})
    case StopRemoved(source) =>
      if Get(s.registry.sources, source.runner) == Some(source) then s
      else s.(signalled := s.signalled + {source})
  }

  function Exec(s: System, steps: seq<Step>): System
    decreases |steps|
  {
    if steps == [] then s else Exec(Apply(s, steps[0]), steps[1..])
  }

  // ---- the invariant ---------------------------------------------------------------

  function Holders(leases: map<nat, Lease>, runner: string): set<nat> {
    set call | call in leases && leases[call].runner == runner
  }

  /** The count kept for each runner is the number of maintenance calls that
      have begun to pause it and not yet unpaused it. */
  ghost predicate Balanced(s: System) {
    forall runner :: PauseCount(s.registry, runner) == |Holders(s.leases, runner)|
  }

  ghost predicate NoZero(r: Registry) {
    forall runner | runner in r.paused :: r.paused[runner] > 0
  }

  ghost predicate PausedUnknown(r: Registry) {
    r.paused.Keys <= r.failed
  }

  ghost predicate Named(s: System) {
    && (forall rid | rid in s.registry.sources ::
          s.registry.sources[rid].runner == rid && s.registry.sources[rid].generation < s.registry.clock)
    && (forall source | source in s.alive :: source.generation < s.registry.clock)
  }

  ghost predicate LeaseInv(s: System, lease: Lease) {
    && (lease.captured.Some? ==> lease.captured.value.runner == lease.runner
                                 && lease.captured.value.generation < s.registry.clock)
    && (lease.phase == Stopping ==> lease.captured.Some?)
    && (Get(s.registry.sources, lease.runner).None? || Get(s.registry.sources, lease.runner) == lease.captured)
    && (lease.phase == Returned ==> lease.runner !in s.registry.sources)
    && (lease.phase == Returned && lease.captured.Some? ==> lease.captured.value !in s.alive)
  }

  ghost predicate Inv(s: System) {
    && Balanced(s) && NoZero(s.registry) && PausedUnknown(s.registry) && Named(s)
    && (forall call | call in s.leases :: LeaseInv(s, s.leases[call]))
  }

  lemma {:induction false} HeldIsPaused(s: System, call: nat)
    requires Balanced(s) && call in s.leases
    ensures s.leases[call].runner in s.registry.paused
  {
    assert call in Holders(s.leases, s.leases[call].runner);
  }

  lemma {:induction false} HoldersOfNew(leases: map<nat, Lease>, call: nat, lease: Lease, runner: string)
    requires call !in leases
    ensures |Holders(leases[call := lease], runner)|
            == |Holders(leases, runner)| + if lease.runner == runner then 1 else 0
  {
    var before, after := Holders(leases, runner), Holders(leases[call := lease], runner);
    assert after == if lease.runner == runner then before + {call} else before;
  }

  lemma {:induction false} HoldersOfDropped(leases: map<nat, Lease>, call: nat, runner: string)
    requires call in leases
    ensures |Holders(leases - {call}, runner)|
            == |Holders(leases, runner)| - if leases[call].runner == runner then 1 else 0
  {
    var before, after := Holders(leases, runner), Holders(leases - {call}, runner);
    assert after == if leases[call].runner == runner then before - {call} else before;
  }

  lemma {:induction false} BeginKeeps(s: System, call: nat, runner: string)
    requires Inv(s)
    ensures Inv(Begin(s, call, runner))
  {
    if call !in s.leases {
      var s' := Begin(s, call, runner);
      forall r ensures PauseCount(s'.registry, r) == |Holders(s'.leases, r)| {
        HoldersOfNew(s.leases, call, s'.leases[call], r);
      }
      forall c | c in s'.leases ensures LeaseInv(s', s'.leases[c]) {
        if c != call { assert LeaseInv(s, s.leases[c]); }
      }
    }
  }

  lemma {:induction false} EndKeeps(s: System, call: nat)
    requires Inv(s)
    ensures Inv(End(s, call))
  {
    var s' := End(s, call);
    forall r ensures PauseCount(s'.registry, r) == |Holders(s'.leases, r)| {
      assert Holders(s'.leases, r) == Holders(s.leases, r);
    }
    forall c | c in s'.leases ensures LeaseInv(s', s'.leases[c]) {
      assert LeaseInv(s, s.leases[c]);
    }
  }

  lemma {:induction false} FinishKeeps(s: System, call: nat)
    requires Inv(s)
    ensures Inv(Apply(s, Finish(call)))
  {
    if call in s.leases && s.leases[call].phase != Stopping {
      var s' := Apply(s, Finish(call));
      HeldIsPaused(s, call);
      forall r ensures PauseCount(s'.registry, r) == |Holders(s'.leases, r)| {
        HoldersOfDropped(s.leases, call, r);
      }
      forall c | c in s'.leases ensures LeaseInv(s', s'.leases[c]) {
        assert LeaseInv(s, s.leases[c]);
      }
    }
  }

  lemma {:induction false} HeartbeatKeeps(s: System, owned: set<string>)
    requires Inv(s)
    ensures Inv(Apply(s, Heartbeat(owned)))
  {
    var s' := Apply(s, Heartbeat(owned));
    forall c | c in s'.leases ensures LeaseInv(s', s'.leases[c]) {
      assert LeaseInv(s, s.leases[c]);
      HeldIsPaused(s, c);
    }
  }

  lemma {:induction false} ThreadKeeps(s: System, step: Step)
    requires Inv(s) && (step.Ready? || step.Fail? || step.Exit? || step.StopRemoved?)
    ensures Inv(Apply(s, step))
  {
    var s' := Apply(s, step);
    forall c | c in s'.leases ensures LeaseInv(s', s'.leases[c]) {
      assert LeaseInv(s, s.leases[c]);
    }
  }

  lemma {:induction false} ApplyKeeps(s: System, step: Step)
    requires Inv(s)
    ensures Inv(Apply(s, step))
  {
    if step.PauseBegin? { BeginKeeps(s, step.call, step.runner); }
    else if step.PauseEnd? { EndKeeps(s, step.call); }
    else if step.Finish? { FinishKeeps(s, step.call); }
    else if step.Heartbeat? { HeartbeatKeeps(s, step.owned); }
    else { ThreadKeeps(s, step); }
  }

  lemma {:induction false} StartHolds()
    ensures Inv(START)
  {
    forall runner ensures PauseCount(START.registry, runner) == |Holders(START.leases, runner)| {
      assert Holders(START.leases, runner) == {};
    }
  }

  lemma {:induction false} ExecKeeps(s: System, steps: seq<Step>)
    requires Inv(s)
    ensures Inv(Exec(s, steps))
    decreases |steps|
  {
    if steps == [] {
    } else {
      ApplyKeeps(s, steps[0]);
      ExecKeeps(Apply(s, steps[0]), steps[1..]);
    }
  }

  // ---- main results -------------------------------------------------------------------

  /** In every run the pause count of a runner is exactly the number of
      maintenance calls holding it, including those whose pause raised. */
  lemma {:induction false} PauseCountsLeases(steps: seq<Step>, runner: string)
    ensures var s := Exec(START, steps);
            && PauseCount(s.registry, runner) == |Holders(s.leases, runner)|
            && (runner in s.registry.paused <==> exists call :: call in s.leases && s.leases[call].runner == runner)
  {
    StartHolds();
    ExecKeeps(START, steps);
    var s := Exec(START, steps);
    var holders := Holders(s.leases, runner);
    if runner in s.registry.paused {
      assert |holders| > 0;
      var call :| call in holders;
    } else if call :| call in s.leases && s.leases[call].runner == runner {
      HeldIsPaused(s, call);
    }
  }

  /** A paused runner is always unknown, so `jobs` names nothing for it. */
  lemma {:induction false} PausedIsUnknown(steps: seq<Step>, runner: string)
    requires runner in Exec(START, steps).registry.paused
    ensures runner in Exec(START, steps).registry.failed
  {
    StartHolds();
    ExecKeeps(START, steps);
  }

  /** No step starts a source, or a source thread, for a paused runner. */
  lemma {:induction false} NoStartWhilePaused(s: System, step: Step, runner: string)
    requires runner in s.registry.paused
    ensures var s' := Apply(s, step);
            && (runner in s'.registry.sources ==>
                  runner in s.registry.sources && s'.registry.sources[runner] == s.registry.sources[runner])
            && (forall source | source in s'.alive && source.runner == runner :: source in s.alive)
  {
  }

  /** In every run, after a heartbeat every observed runner that is not paused is watched: its
      registered source is its own and its thread runs. No other unpaused runner is. */
  lemma {:induction false} HeartbeatWatches(steps: seq<Step>, owned: set<string>, runner: string)
    requires runner !in Exec(START, steps).registry.paused
    ensures
      var s := Apply(Exec(START, steps), Heartbeat(owned));
      && (runner in owned ==>
            && runner in s.registry.sources && s.registry.sources[runner].runner == runner
            && s.registry.sources[runner] in s.alive)
      && (runner !in owned ==> runner !in s.registry.sources)
  {
    StartHolds();
    ExecKeeps(START, steps);
    var s := Exec(START, steps);
    HeartbeatMeans(s.registry, owned, s.alive);
    if runner in owned && !(runner in s.registry.sources && s.registry.sources[runner] in s.alive) {
      assert runner in SourceRegistry.Started(s.registry, owned, s.alive);
    }
  }

  /** An unknown runner, and so one whose source is new, stays unknown until that very source
      says it is ready: alive, not told to stop, and the runner not paused. */
  lemma {:induction false} UnknownUntilReady(s: System, step: Step, runner: string)
    requires runner in s.registry.failed && runner !in Apply(s, step).registry.failed
    ensures step.Ready? && step.source.runner == runner && step.source in s.alive && step.source !in s.signalled
    ensures runner in s.registry.sources && s.registry.sources[runner] == step.source
    ensures runner !in s.registry.paused
  {
    hide Removed, SourceRegistry.Started;
  }

  /** Which sources are told to stop: the one a pause captures, and those that are removed
      from the registry and not there again. */
  lemma {:induction false} SignalledExactly(s: System, step: Step, source: Source)
    ensures source in Apply(s, step).signalled <==>
      (|| source in s.signalled
       || (&& step.PauseBegin? && step.call !in s.leases && step.runner in s.registry.sources
           && s.registry.sources[step.runner] == source)
       || (&& step == StopRemoved(source)
           && !(source.runner in s.registry.sources && s.registry.sources[source.runner] == source)))
  {
  }

  /** And then it is known again. */
  lemma {:induction false} ReadyIsKnown(s: System, source: Source)
    requires source in s.alive && source !in s.signalled && source.runner !in s.registry.paused
    requires source.runner in s.registry.sources && s.registry.sources[source.runner] == source
    ensures Apply(s, Ready(source)).registry.failed == s.registry.failed - {source.runner}
  {
  }

  /** And one whose watcher fails is unknown. */
  lemma {:induction false} FailedIsUnknown(s: System, source: Source)
    requires source in s.alive && Get(s.registry.sources, source.runner) == Some(source)
    ensures source.runner in Apply(s, Fail(source)).registry.failed
  {
  }

  /** Once a pause has returned no source is registered for its runner, until
      that maintenance call unpauses. */
  lemma {:induction false} ReturnedHasNoSource(steps: seq<Step>, call: nat)
    requires call in Exec(START, steps).leases && Exec(START, steps).leases[call].phase == Returned
    ensures Exec(START, steps).leases[call].runner !in Exec(START, steps).registry.sources
  {
    StartHolds();
    ExecKeeps(START, steps);
    assert LeaseInv(Exec(START, steps), Exec(START, steps).leases[call]);
  }

  /** The runner is paused now and after each of the steps. */
  ghost predicate PausedThroughout(s: System, steps: seq<Step>, runner: string)
    decreases |steps|
  {
    runner in s.registry.paused && (steps == [] || PausedThroughout(Apply(s, steps[0]), steps[1..], runner))
  }

  lemma {:induction false} StaysWithout(s: System, steps: seq<Step>, runner: string)
    requires PausedThroughout(s, steps, runner) && runner !in s.registry.sources
    ensures runner !in Exec(s, steps).registry.sources
    decreases |steps|
  {
    if steps == [] {
    } else {
      NoStartWhilePaused(s, steps[0], runner);
      StaysWithout(Apply(s, steps[0]), steps[1..], runner);
    }
  }

  /** Once any pause of a runner has returned no source is registered for it until its
      last unpause: through every continuation during which it stays paused, whichever
      calls begin, return, raise or unpause meanwhile. */
  lemma {:induction false} NoSourceUntilLastUnpause(first: seq<Step>, call: nat, rest: seq<Step>)
    requires call in Exec(START, first).leases && Exec(START, first).leases[call].phase == Returned
    requires PausedThroughout(Exec(START, first), rest, Exec(START, first).leases[call].runner)
    ensures Exec(START, first).leases[call].runner !in Exec(Exec(START, first), rest).registry.sources
  {
    ReturnedHasNoSource(first, call);
    StaysWithout(Exec(START, first), rest, Exec(START, first).leases[call].runner);
  }

  /** Live source threads of a runner that are no longer registered: a
      heartbeat removed them and their threads have not finished. */
  ghost function Detached(s: System, runner: string): set<Source> {
    set source | source in s.alive && source.runner == runner && Get(s.registry.sources, runner) != Some(source)
  }

  ghost function LiveOf(s: System, runner: string): set<Source> {
    set source | source in s.alive && source.runner == runner
  }

  lemma {:induction false} LiveShrinks(s: System, steps: seq<Step>, call: nat)
    requires Inv(s) && call in s.leases
    requires Finish(call) !in steps
    ensures var s' := Exec(s, steps);
            && call in s'.leases && s'.leases[call].runner == s.leases[call].runner
            && s'.leases[call].captured == s.leases[call].captured
            && LiveOf(s', s.leases[call].runner) <= LiveOf(s, s.leases[call].runner)
    decreases |steps|
  {
    if steps == [] {
    } else {
      var runner := s.leases[call].runner;
      HeldIsPaused(s, call);
      NoStartWhilePaused(s, steps[0], runner);
      ApplyKeeps(s, steps[0]);
      var next := Apply(s, steps[0]);
      assert Finish(call) != steps[0];
      assert call in next.leases && next.leases[call].runner == runner
          && next.leases[call].captured == s.leases[call].captured;
      LiveShrinks(next, steps[1..], call);
    }
  }

  /** Exactly which threads maintenance may still overlap: when a pause has
      returned, the live source threads of its runner are those among the
      already detached ones at the moment it began that have not exited since.
      So the runner is quiet if, and only if, all of those have exited. */
  lemma {:induction false} ReturnedLeavesOnlyDetached(s: System, call: nat, runner: string, steps: seq<Step>)
    requires Inv(s) && call !in s.leases && Finish(call) !in steps
    requires var s' := Exec(Begin(s, call, runner), steps);
             call in s'.leases && s'.leases[call].phase == Returned
    ensures var s' := Exec(Begin(s, call, runner), steps);
            LiveOf(s', runner) == set source | source in Detached(s, runner) && source in s'.alive
  {
    var begun := Begin(s, call, runner);
    BeginKeeps(s, call, runner);
    LiveShrinks(begun, steps, call);
    ExecKeeps(begun, steps);
    var s' := Exec(begun, steps);
    assert LeaseInv(s', s'.leases[call]);
    forall source | source in LiveOf(s', runner) ensures source in Detached(s, runner) {
      assert source in LiveOf(begun, runner);
      assert s'.leases[call].captured == Get(s.registry.sources, runner);
    }
  }

  /** Such a thread exists: a heartbeat that no longer sees the runner drops
      its source from the registry, and a pause that begins before that thread
      has exited captures nothing and returns at once. */
  lemma {:induction false} PauseMayOverlapDetached(runner: string)
    ensures var steps := [Heartbeat({runner}), Heartbeat({}), PauseBegin(0, runner)];
            var s := Exec(START, steps);
            0 in s.leases && s.leases[0].phase == Returned && Source(runner, 0) in s.alive
  {
    var s1 := Apply(START, Heartbeat({runner}));
    assert s1.alive == {Source(runner, 0)} && s1.registry.sources == map[runner := Source(runner, 0)] by {
      assert Started(START.registry, {runner}, {}) == {runner};
    }
    var s2 := Apply(s1, Heartbeat({}));
    assert s2.registry.sources == map[] && Source(runner, 0) in s2.alive by {
      assert Removed(s1.registry, {}, s1.alive) == {runner};
    }
    var s3 := Apply(s2, PauseBegin(0, runner));
    assert Exec(s1, [Heartbeat({}), PauseBegin(0, runner)]) == Exec(s2, [PauseBegin(0, runner)]);
    assert Exec(s2, [PauseBegin(0, runner)]) == Exec(s3, []);
  }
}
