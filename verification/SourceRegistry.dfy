/** Which runners are being watched, and the pause protocol that storage
    maintenance relies on (agent/job_events.py `reconcile`, `pause`, `unpause`,
    `_mark_ready`, the failure path of `_run`; agent/verbs.py `observed_work`). */
module SourceRegistry {
  import opened Basics

  /** A source object: its runner, and which start of it this is. */
  datatype Source = Source(runner: string, generation: nat)

  datatype Registry = Registry(
    sources: map<string, Source>,
    paused: map<string, nat>,
    failed: set<string>,
    clock: nat)

  function Get(sources: map<string, Source>, runner: string): Option<Source> {
    if runner in sources then Some(sources[runner]) else None
  }

  function PauseCount(r: Registry, runner: string): nat {
    if runner in r.paused then r.paused[runner] else 0
  }

  /** First critical section of `pause`. */
  function PauseMark(r: Registry, runner: string): Registry {
    r.(paused := r.paused[runner := PauseCount(r, runner) + 1], failed := r.failed + {runner})
  }

  /** Second critical section of `pause`: drop the stopped source, unless
      another pause has done so already. */
  function PauseDetach(r: Registry, runner: string, source: Source): Registry {
    if Get(r.sources, runner) == Some(source) then r.(sources := r.sources - {runner}) else r
  }

  function Unpause(r: Registry, runner: string): Registry {
    if PauseCount(r, runner) > 1 then r.(paused := r.paused[runner := PauseCount(r, runner) - 1])
    else r.(paused := r.paused - {runner})
  }

  /** `_mark_ready`: only the registered, unstopped source of an unpaused
      runner may clear the runner's unknown mark. */
  predicate MayMarkReady(r: Registry, source: Source, stopping: bool) {
    Get(r.sources, source.runner) == Some(source) && !stopping && source.runner !in r.paused
  }

  function MarkReady(r: Registry, source: Source, stopping: bool): Registry {
    if MayMarkReady(r, source, stopping) then r.(failed := r.failed - {source.runner}) else r
  }

  function Failed(r: Registry, source: Source): Registry {
    if Get(r.sources, source.runner) == Some(source) then r.(failed := r.failed + {source.runner}) else r
  }

  /** `reconcile`: the sources it removes, given the runners observed owned and
      the source threads that are alive. */
  function Removed(r: Registry, owned: set<string>, alive: set<Source>): set<string> {
    var wanted := owned - r.paused.Keys;
    var dead := set rid | rid in r.sources && r.sources[rid] !in alive;
    (r.sources.Keys - wanted + dead) - r.paused.Keys
  }

  function Started(r: Registry, owned: set<string>, alive: set<Source>): set<string> {
    owned - r.paused.Keys - (r.sources.Keys - Removed(r, owned, alive))
  }

  function NewSources(runners: set<string>, clock: nat): map<string, Source> {
    map rid | rid in runners :: Source(rid, clock)
  }

  function Reconcile(r: Registry, owned: set<string>, alive: set<Source>): Registry {
    var started := Started(r, owned, alive);
    r.(sources := (r.sources - Removed(r, owned, alive)) + NewSources(started, r.clock),
       failed := r.failed + started,
       clock := r.clock + 1)
  }

  /** What a heartbeat leaves, runner by runner: every unpaused observed runner has its
      old source if that was alive and a new one otherwise; no unpaused unobserved runner
      has a source; a paused one keeps what it had; and exactly the runners whose source
      is new become unknown. */
  lemma {:induction false} HeartbeatMeans(r: Registry, observed: set<string>, alive: set<Source>)
    ensures
      var after := Reconcile(r, observed, alive);
      && (forall rid | rid in observed && rid !in r.paused ::
            rid in after.sources && after.sources[rid] ==
              if rid in r.sources && r.sources[rid] in alive then r.sources[rid] else Source(rid, r.clock))
      && (forall rid | rid !in observed && rid !in r.paused :: rid !in after.sources)
      && (forall rid | rid in r.paused :: Get(after.sources, rid) == Get(r.sources, rid))
      && (forall rid :: rid in after.failed <==>
            rid in r.failed
            || (rid in observed && rid !in r.paused && !(rid in r.sources && r.sources[rid] in alive)))
      && after.paused == r.paused && after.clock == r.clock + 1
  {
  }

  /** The registry as the sender keeps it. */
  class SourceTable {
    var sources: map<string, Source>
    var paused: map<string, nat>
    var failedSources: set<string>
    var clock: nat

    function View(): Registry
      reads this
    {
      Registry(sources, paused, failedSources, clock)
    }

    constructor ()
      ensures View() == Registry(map[], map[], {}, 0)
    {
      sources, paused, failedSources, clock := map[], map[], {}, 0;
    }

    method Pause(runner: string) returns (source: Option<Source>)
      modifies this
      ensures View() == PauseMark(old(View()), runner)
      ensures source == if runner in old(sources) then Some(old(sources)[runner]) else None
      ensures paused == old(paused)[runner := 1 + if runner in old(paused) then old(paused)[runner] else 0]
      ensures failedSources == old(failedSources) + {runner} && sources == old(sources)
    {
      var count := if runner in paused then paused[runner] else 0;
      paused := paused[runner := count + 1];
      source := if runner in sources then Some(sources[runner]) else None;
      failedSources := failedSources + {runner};
    }

    method Detach(runner: string, source: Source)
      modifies this
      ensures View() == PauseDetach(old(View()), runner, source)
      ensures sources == if runner in old(sources) && old(sources)[runner] == source then old(sources) - {runner}
                         else old(sources)
      ensures paused == old(paused) && failedSources == old(failedSources)
    {
      if runner in sources && sources[runner] == source {
        sources := sources - {runner};
      }
    }

    method Resume(runner: string)
      modifies this
      ensures View() == Unpause(old(View()), runner)
      ensures paused == if runner in old(paused) && old(paused)[runner] > 1
                        then old(paused)[runner := old(paused)[runner] - 1] else old(paused) - {runner}
      ensures sources == old(sources) && failedSources == old(failedSources)
    {
      var count := if runner in paused then paused[runner] else 0;
      if count > 1 {
        paused := paused[runner := count - 1];
      } else {
        paused := paused - {runner};
      }
    }

    method Ready(source: Source, stopping: bool) returns (ready: bool)
      modifies this
      ensures ready == MayMarkReady(old(View()), source, stopping)
      ensures View() == MarkReady(old(View()), source, stopping)
      ensures ready <==>
        !stopping && source.runner !in paused && source.runner in sources && sources[source.runner] == source
      ensures failedSources == if ready then old(failedSources) - {source.runner} else old(failedSources)
      ensures sources == old(sources) && paused == old(paused)
    {
      if source.runner !in sources || sources[source.runner] != source || stopping || source.runner in paused {
        return false;
      }
      failedSources := failedSources - {source.runner};
      return true;
    }

    method StartAll(owned: set<string>)
      requires owned !! sources.Keys
      modifies this
      ensures View() == old(View()).(sources := old(sources) + NewSources(owned, old(clock)),
                                     failed := old(failedSources) + owned,
                                     clock := old(clock) + 1)
    {
      var toStart := owned;
      while toStart != {}
        invariant toStart <= owned
        invariant sources == old(sources) + NewSources(owned - toStart, clock)
        invariant failedSources == old(failedSources) + (owned - toStart)
        invariant clock == old(clock) && paused == old(paused)
        decreases toStart
      {
        var rid :| rid in toStart;
        sources := sources[rid := Source(rid, clock)];
        failedSources := failedSources + {rid};
        toStart := toStart - {rid};
      }
      clock := clock + 1;
    }

    method ReconcileSources(observed: set<string>, alive: set<Source>) returns (removed: set<Source>)
      modifies this
      ensures View() == Reconcile(old(View()), observed, alive)
      ensures removed == set rid | rid in Removed(old(View()), observed, alive) :: old(sources)[rid]
      ensures forall rid | rid in observed && rid !in paused ::
                rid in sources && sources[rid] ==
                  if rid in old(sources) && old(sources)[rid] in alive then old(sources)[rid]
                  else Source(rid, old(clock))
      ensures forall rid | rid !in observed && rid !in paused :: rid !in sources
      ensures forall rid | rid in paused :: Get(sources, rid) == Get(old(sources), rid)
      ensures forall rid :: rid in failedSources <==>
                rid in old(failedSources)
                || (rid in observed && rid !in paused && !(rid in old(sources) && old(sources)[rid] in alive))
      ensures forall source :: source in removed <==>
                exists rid :: && rid in old(sources) && rid !in paused && old(sources)[rid] == source
                              && (rid !in observed || source !in alive)
      ensures paused == old(paused) && clock == old(clock) + 1
    {
      HeartbeatMeans(View(), observed, alive);
      var owned := observed - paused.Keys;
      var dead := set rid | rid in sources && sources[rid] !in alive;
      var removedIds := (sources.Keys - owned + dead) - paused.Keys;
      assert removedIds == Removed(View(), observed, alive);
      removed := set rid | rid in removedIds :: sources[rid];
      sources := sources - removedIds;
      assert owned - sources.Keys == Started(old(View()), observed, alive);
      StartAll(owned - sources.Keys);
    }
  }
}
