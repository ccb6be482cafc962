/** Exactly when ensure and remove succeed, and exactly which stops leave a runner
    directory they can finish later. */
module DiskRestart {
  import opened Basics
  import opened DiskPlan
  import opened DiskProofs

  ghost predicate Calm(fates: Fates) {
    forall n: nat :: fates(n).Happens?
  }

  // ---- what can be done with a directory as it stands ----------------------------------

  predicate Reachable(d: Disk) {
    d.target.Some? ==>
      && (Mounted(d) || !d.target.value.hidden)
      && forall a | a in AREAS :: a !in d.target.value.over
  }

  /** No directory, an empty one, or one of this runner and size whose image, if there
      is one, is whole, and whose mount point hides nothing. */
  predicate CanEnsure(p: Place, rid: string, size: int) {
    p.None? || EmptyDirectory(p.value)
    || (Identified(p.value, rid) && p.value.meta.bytes == size
        && (p.value.image.None? || Whole(p.value, rid)) && Reachable(p.value))
  }

  predicate CanRemove(p: Place, rid: string) {
    p.None?
    || (Identified(p.value, rid) && (p.value.image.None? || Whole(p.value, rid))
        && (p.value.target.None?
            || (!p.value.target.value.hidden && (Mounted(p.value) ==> p.value.target.value.over == {})))
        && (p.value.image.Some? ==> p.value.loops == 0))
  }

  /** Metadata cut short, or an image whose format did not finish. */
  predicate Stuck(p: Place, rid: string) {
    p.Some? && (p.value.meta.Unreadable? || (p.value.image.Some? && !Whole(p.value, rid)))
  }

  // ---- calm runs -------------------------------------------------------------------------

  lemma {:induction false} CalmDoes(r: Ran, effects: seq<Effect>, fates: Fates)
    requires r.ok && Calm(fates)
    ensures DoAll(r, effects, fates).ok
    ensures DoAll(r, effects, fates).place == PerformAll(r.place, effects)
    decreases |effects|
  {
    if effects == [] {
    } else {
      CalmDoes(Do(r, effects[0], fates), effects[1..], fates);
    }
  }

  lemma {:induction false} PerformOne(p: Place, e: Effect)
    ensures PerformAll(p, [e]) == Perform(p, e)
  {
    assert [e][1..] == [];
    assert PerformAll(Perform(p, e), []) == Perform(p, e);
  }

  /** A phase done in full leaves a directory that can be ensured exactly when it could
      be before, and never refuses one that can. */
  predicate Faithful(r: Ran, q: Ran, rid: string, size: int) {
    && (CanEnsure(r.place, rid, size) ==> q.ok)
    && (q.ok ==> (CanEnsure(r.place, rid, size) <==> CanEnsure(q.place, rid, size)))
  }

  lemma {:induction false} CalmMaking(r: Ran, rid: string, size: int, k: nat, fates: Fates)
    requires r.ok && Calm(fates) && Inv(r.place, rid) && SizeOk(size) && k <= 4 && Stage(k, r.place, rid, size)
    ensures Faithful(r, RunPhase(r, Ensuring(size)[k], rid, fates), rid, size)
  {
    var effects := PhasePlan(r.place, Ensuring(size)[k], rid).effects;
    CalmDoes(r, effects, fates);
    if k == 0 && r.place.None? {
      PerformOne(r.place, MakeDirectory);
    } else if k == 1 && EmptyDirectory(r.place.value) {
      DescribeClear(r.place, rid, size);
    } else if k == 4 && r.place.value.image.None? {
      AllocateClear(r.place, rid);
    }
  }

  lemma {:induction false} CalmMounting(r: Ran, rid: string, size: int, k: nat, fates: Fates)
    requires r.ok && Calm(fates) && 5 <= k < 9 && Stage(k, r.place, rid, size)
    ensures Faithful(r, RunPhase(r, Ensuring(size)[k], rid, fates), rid, size)
  {
    var plan := PhasePlan(r.place, Ensuring(size)[k], rid);
    CalmDoes(r, plan.effects, fates);
    if k == 6 && r.place.value.target.None? {
      PerformOne(r.place, MakeTarget);
    } else if k == 7 && plan.effects != [] {
      PerformOne(r.place, Mount);
    } else if k == 8 && plan.effects != [] {
      PerformOne(r.place, SwitchDirect);
    }
  }

  lemma {:induction false} CalmProviding(r: Ran, rid: string, size: int, k: nat, fates: Fates)
    requires r.ok && Calm(fates) && 9 <= k < 14 && Stage(k, r.place, rid, size)
    ensures Faithful(r, RunPhase(r, Ensuring(size)[k], rid, fates), rid, size)
  {
    var area := AREAS[k - 9];
    var plan := PhasePlan(r.place, Provide(area), rid);
    CalmDoes(r, plan.effects, fates);
    PerformOne(r.place, MakeArea(area));
    assert area in AREAS;
  }

  lemma {:induction false} CalmRest(p: Place, r: Ran, rid: string, size: int, k: nat, fates: Fates)
    requires r.ok && Calm(fates) && Sound(p, r, rid) && Inv(p, rid) && SizeOk(size)
    requires k <= |Ensuring(size)| && Stage(k, r.place, rid, size)
    ensures RunPhases(r, Ensuring(size)[k..], rid, fates).ok <==> CanEnsure(r.place, rid, size)
    decreases |Ensuring(size)| - k
  {
    if k < |Ensuring(size)| {
      EnsureStep(p, r, rid, size, k, fates);
      LogKeeps(p, r.acts, r.place, rid);
      var next := RunPhase(r, Ensuring(size)[k], rid, fates);
      if k <= 4 { CalmMaking(r, rid, size, k, fates); }
      else if k < 9 { CalmMounting(r, rid, size, k, fates); }
      else { CalmProviding(r, rid, size, k, fates); }
      assert Ensuring(size)[k..][1..] == Ensuring(size)[k + 1..];
      if next.ok { CalmRest(p, next, rid, size, k + 1, fates); }
    } else {
      EnsuredCanBe(r.place, rid, size);
    }
  }

  lemma {:induction false} EnsuredCanBe(p: Place, rid: string, size: int)
    requires Ready(p, rid, size)
    ensures CanEnsure(p, rid, size)
  {
    forall a | a in AREAS ensures a !in p.value.target.value.over {
      var j :| 0 <= j < |AREAS| && AREAS[j] == a;
      assert Provided(p.value, AREAS[j]);
    }
  }

  /** Undisturbed, `ensure` succeeds exactly on a valid size and a directory that can
      be ensured, and then leaves it ready. */
  lemma {:induction false} EnsureSucceedsExactly(p: Place, rid: string, size: int, fates: Fates, n: nat)
    requires Inv(p, rid) && Calm(fates)
    ensures Ensure(p, rid, size, fates, n).ok <==> SizeOk(size) && CanEnsure(p, rid, size)
    ensures Ensure(p, rid, size, fates, n).ok ==> Ready(Ensure(p, rid, size, fates, n).place, rid, size)
  {
    EnsureSound(p, rid, size, fates, n);
    if SizeOk(size) {
      assert Ensuring(size)[0..] == Ensuring(size);
      CalmRest(p, Ran(p, [], n, true), rid, size, 0, fates);
    }
  }

  // ---- ensuring what is ready changes nothing ------------------------------------------

  lemma {:induction false} ReadyRest(r: Ran, rid: string, size: int, k: nat, fates: Fates)
    requires r.ok && SizeOk(size) && k <= |Ensuring(size)| && Ready(r.place, rid, size)
    ensures RunPhases(r, Ensuring(size)[k..], rid, fates) == r
    decreases |Ensuring(size)| - k
  {
    if k < |Ensuring(size)| {
      if k >= 9 { assert Provided(r.place.value, AREAS[k - 9]); }
      assert RunPhase(r, Ensuring(size)[k], rid, fates) == r;
      assert Ensuring(size)[k..][1..] == Ensuring(size)[k + 1..];
      ReadyRest(r, rid, size, k + 1, fates);
    }
  }

  /** `ensure` is idempotent: run again on a ready directory it performs nothing. */
  lemma {:induction false} EnsureAgainDoesNothing(p: Place, rid: string, size: int, fates: Fates, n: nat)
    requires Ready(p, rid, size) && SizeOk(size)
    ensures Ensure(p, rid, size, fates, n) == Ran(p, [], n, true)
  {
    assert Ensuring(size)[0..] == Ensuring(size);
    ReadyRest(Ran(p, [], n, true), rid, size, 0, fates);
  }

  // ---- a stop, and then ensure again ------------------------------------------------------

  predicate Making(e: Effect, size: int) {
    && !(e.Unmount? || e.DropTarget? || e.UnlinkImage? || e.UnlinkMetadata? || e.DropDirectory?)
    && (e.WriteMetadata? ==> e.bytes == size)
  }

  ghost predicate AllMaking(acts: seq<Act>, size: int) {
    forall k | 0 <= k < |acts| :: Making(acts[k].effect, size)
  }

  lemma {:induction false} MakingEffects(r: Ran, effects: seq<Effect>, size: int, fates: Fates)
    requires AllMaking(r.acts, size) && forall k | 0 <= k < |effects| :: Making(effects[k], size)
    ensures AllMaking(DoAll(r, effects, fates).acts, size)
    decreases |effects|
  {
    if effects != [] && r.ok {
      assert Making(effects[0], size);
      MakingEffects(Do(r, effects[0], fates), effects[1..], size, fates);
    }
  }

  lemma {:induction false} MakingRest(r: Ran, rid: string, size: int, k: nat, fates: Fates)
    requires AllMaking(r.acts, size) && k <= |Ensuring(size)|
    ensures AllMaking(RunPhases(r, Ensuring(size)[k..], rid, fates).acts, size)
    decreases |Ensuring(size)| - k
  {
    if k < |Ensuring(size)| {
      MakingEffects(r, PhasePlan(r.place, Ensuring(size)[k], rid).effects, size, fates);
      assert Ensuring(size)[k..][1..] == Ensuring(size)[k + 1..];
      MakingRest(RunPhase(r, Ensuring(size)[k], rid, fates), rid, size, k + 1, fates);
    }
  }

  /** Every state `ensure` passes through: it can be ensured, or it is in one of the two
      windows, inside the metadata write or between creating and formatting the image. */
  predicate OnTheWay(p: Place, rid: string, size: int) {
    CanEnsure(p, rid, size)
    || (p.value.meta.Unreadable? && EmptyDirectory(p.value.(meta := Absent)))
    || (Identified(p.value, rid) && p.value.meta.bytes == size && p.value.image.Some? && !Whole(p.value, rid)
        && p.value.target.None?)
  }

  lemma {:induction false} ActStaysOnTheWay(act: Act, rid: string, size: int)
    requires OnTheWay(act.before, rid, size) && Permitted(act, rid) && Making(act.effect, size)
    ensures OnTheWay(Perform(act.before, act.effect), rid, size)
  {
  }

  lemma {:induction false} LogStaysOnTheWay(p: Place, acts: seq<Act>, q: Place, rid: string, size: int)
    requires Leads(p, acts, q) && AllPermitted(acts, rid) && AllMaking(acts, size) && OnTheWay(p, rid, size)
    ensures OnTheWay(q, rid, size)
    decreases |acts|
  {
    if acts == [] {
    } else {
      var last := acts[|acts| - 1];
      LogStaysOnTheWay(p, acts[..|acts| - 1], last.before, rid, size);
      ActStaysOnTheWay(last, rid, size);
    }
  }

  /** Stopped anywhere, `ensure` can be run again exactly when the stop fell neither
      inside the metadata write nor between creating the image and the end of its
      format. */
  lemma {:induction false} EnsureCanResumeExactly(p: Place, rid: string, size: int, fates: Fates, n: nat)
    requires Inv(p, rid) && CanEnsure(p, rid, size) && SizeOk(size)
    ensures
      var q := Ensure(p, rid, size, fates, n).place;
      CanEnsure(q, rid, size) <==> !Stuck(q, rid)
  {
    var r := Ensure(p, rid, size, fates, n);
    EnsureSound(p, rid, size, fates, n);
    assert Ensuring(size)[0..] == Ensuring(size);
    MakingRest(Ran(p, [], n, true), rid, size, 0, fates);
    LogStaysOnTheWay(p, r.acts, r.place, rid, size);
  }

  // ---- stuck ------------------------------------------------------------------------------

  lemma {:induction false} StuckRest(r: Ran, rid: string, size: int, k: nat, fates: Fates)
    requires r.ok && Stuck(r.place, rid) && k <= 5
    ensures RunPhases(r, Ensuring(size)[k..], rid, fates) == r.(ok := false)
    decreases 5 - k
  {
    var next := RunPhase(r, Ensuring(size)[k], rid, fates);
    assert next == r || next == r.(ok := false);
    assert Ensuring(size)[k..][1..] == Ensuring(size)[k + 1..];
    if next.ok { StuckRest(r, rid, size, k + 1, fates); }
  }

  /** A stuck directory is refused by all three operations, with nothing done to it. */
  lemma {:induction false} StuckIsRefused(p: Place, rid: string, size: int, fates: Fates, n: nat)
    requires Stuck(p, rid)
    ensures Ensure(p, rid, size, fates, n) == Ran(p, [], n, false)
    ensures Remove(p, rid, fates, n) == Ran(p, [], n, false)
    ensures Resume(p, rid, fates, n) == Ran(p, [], n, false)
  {
    assert Ensuring(size)[0..] == Ensuring(size);
    var start := Ran(p, [], n, true);
    StuckRest(start, rid, size, 0, fates);
    var one := RunPhase(start, Identify, rid, fates);
    var two := RunPhase(one, InspectAny, rid, fates);
    assert REMOVING[1..][0] == InspectAny;
    assert !two.ok && two == start.(ok := false);
  }

  /** Everything happens but effect number `at`. */
  function StopAt(at: nat): Fates {
    (n: nat) => if n == at then Stops else Happens
  }

  lemma {:induction false} FirstPhases(rid: string, size: int, at: nat)
    requires SizeOk(size) && at >= 3
    ensures
      Ensure(None, rid, size, StopAt(at), 0)
        == RunPhases(
             Ran(Some(Disk(Recorded(size, rid), None, None, false, 0)),
                 [Act(MakeDirectory, None), Act(BeginMetadata, Some(Disk(Absent, None, None, false, 0))),
                  Act(WriteMetadata(size, rid), Some(Disk(Unreadable, None, None, false, 0)))], 3, true),
             Ensuring(size)[2..], rid, StopAt(at))
  {
    var all, fates := Ensuring(size), StopAt(at);
    var r0 := Ran(None, [], 0, true);
    var r1 := Do(r0, MakeDirectory, fates);
    assert [MakeDirectory][1..] == [];
    assert RunPhase(r0, Directory, rid, fates) == r1;
    var two := [BeginMetadata, WriteMetadata(size, rid)];
    assert two[1..] == [WriteMetadata(size, rid)] && two[1..][1..] == [];
    var r2 := Do(r1, BeginMetadata, fates);
    var r3 := Do(r2, WriteMetadata(size, rid), fates);
    assert DoAll(r1, two, fates) == DoAll(r2, two[1..], fates);
    assert DoAll(r2, two[1..], fates) == DoAll(r3, [], fates);
    assert RunPhase(r1, Describe(size), rid, fates) == r3;
    assert all[0..] == all;
    assert r3.acts == [Act(MakeDirectory, None), Act(BeginMetadata, r1.place), Act(WriteMetadata(size, rid), r2.place)];
    hide RunPhase, DoAll, PhasePlan;
    PhaseOn(r0, all, 0, rid, fates);
    PhaseOn(r1, all, 1, rid, fates);
  }

  lemma {:induction false} AllocateStops(r: Ran, rid: string, size: int)
    requires r.ok && r.n == 3 && r.place == Some(Disk(Recorded(size, rid), None, None, false, 0))
    ensures
      var q := RunPhase(r, Allocate, rid, StopAt(5));
      !q.ok && q.place == Some(Disk(Recorded(size, rid), Some(Image(size, Blank, {})), None, false, 0))
  {
    var fates := StopAt(5);
    var three := [CreateImage, SetSize(size), Mkfs(Ext4(rid))];
    assert three[1..] == [SetSize(size), Mkfs(Ext4(rid))] && three[1..][1..] == [Mkfs(Ext4(rid))];
    var r4 := Do(r, CreateImage, fates);
    var r5 := Do(r4, SetSize(size), fates);
    assert DoAll(r, three, fates) == DoAll(r4, three[1..], fates);
    assert DoAll(r4, three[1..], fates) == DoAll(r5, [Mkfs(Ext4(rid))], fates);
    var r6 := Do(r5, Mkfs(Ext4(rid)), fates);
    assert [Mkfs(Ext4(rid))][1..] == [];
    assert r5.ok && r5.n == 5 && !r6.ok && r6.place == r5.place;
    assert DoAll(r5, [Mkfs(Ext4(rid))], fates) == DoAll(r6, [], fates) == r6;
  }

  lemma {:induction false} MiddlePhases(r: Ran, rid: string, size: int, fates: Fates)
    requires r.ok && SizeOk(size) && r.place == Some(Disk(Recorded(size, rid), None, None, false, 0))
    ensures RunPhases(r, Ensuring(size)[2..], rid, fates)
         == RunPhases(RunPhase(r, Allocate, rid, fates), Ensuring(size)[5..], rid, fates)
  {
    assert RunPhase(r, Identify, rid, fates) == r && RunPhase(r, Match(size), rid, fates) == r;
    hide RunPhase, DoAll, PhasePlan;
    PhaseOn(r, Ensuring(size), 2, rid, fates);
    PhaseOn(r, Ensuring(size), 3, rid, fates);
    PhaseOn(r, Ensuring(size), 4, rid, fates);
  }

  /** The window is real: a first `ensure` stopped at its format leaves a stuck
      directory. */
  lemma {:induction false} InterruptedFormatSticks(rid: string, size: int)
    requires SizeOk(size)
    ensures Stuck(Ensure(None, rid, size, StopAt(5), 0).place, rid)
  {
    FirstPhases(rid, size, 5);
    var r3 := Ran(Some(Disk(Recorded(size, rid), None, None, false, 0)),
                  [Act(MakeDirectory, None), Act(BeginMetadata, Some(Disk(Absent, None, None, false, 0))),
                   Act(WriteMetadata(size, rid), Some(Disk(Unreadable, None, None, false, 0)))], 3, true);
    MiddlePhases(r3, rid, size, StopAt(5));
    AllocateStops(r3, rid, size);
  }

  // ---- removal, stopped and run again --------------------------------------------------

  predicate Undoing(e: Effect) {
    e.Unmount? || e.DropTarget? || e.UnlinkImage? || e.UnlinkMetadata? || e.DropDirectory?
  }

  ghost predicate AllUndoing(acts: seq<Act>) {
    forall k | 0 <= k < |acts| :: Undoing(acts[k].effect)
  }

  lemma {:induction false} UndoingEffects(r: Ran, effects: seq<Effect>, fates: Fates)
    requires AllUndoing(r.acts) && forall k | 0 <= k < |effects| :: Undoing(effects[k])
    ensures AllUndoing(DoAll(r, effects, fates).acts)
    decreases |effects|
  {
    if effects != [] && r.ok {
      assert Undoing(effects[0]);
      UndoingEffects(Do(r, effects[0], fates), effects[1..], fates);
    }
  }

  lemma {:induction false} UndoingRest(r: Ran, rid: string, k: nat, fates: Fates)
    requires AllUndoing(r.acts) && k <= |REMOVING|
    ensures AllUndoing(RunPhases(r, REMOVING[k..], rid, fates).acts)
    decreases |REMOVING| - k
  {
    if k < |REMOVING| && r.ok {
      if r.place.Some? {
        UndoingEffects(r, PhasePlan(r.place, REMOVING[k], rid).effects, fates);
      }
      assert REMOVING[k..][1..] == REMOVING[k + 1..];
      UndoingRest(RunPhase(r, REMOVING[k], rid, fates), rid, k + 1, fates);
    }
  }

  predicate OnTheWayOut(p: Place, rid: string) {
    CanRemove(p, rid) || EmptyDirectory(p.value)
  }

  lemma {:induction false} LogStaysOnTheWayOut(p: Place, acts: seq<Act>, q: Place, rid: string)
    requires Leads(p, acts, q) && AllPermitted(acts, rid) && AllUndoing(acts) && OnTheWayOut(p, rid)
    ensures OnTheWayOut(q, rid)
    decreases |acts|
  {
    if acts == [] {
    } else {
      var last := acts[|acts| - 1];
      LogStaysOnTheWayOut(p, acts[..|acts| - 1], last.before, rid);
      assert Permitted(last, rid) && Undoing(last.effect);
    }
  }

  /** Stopped anywhere, `remove` can be run again exactly when the stop did not fall
      between deleting the metadata and the directory; the empty directory left then
      can still be ensured, with any size. */
  lemma {:induction false} RemoveCanResumeExactly(p: Place, rid: string, fates: Fates, n: nat)
    requires Inv(p, rid) && CanRemove(p, rid)
    ensures
      var q := Remove(p, rid, fates, n).place;
      && (CanRemove(q, rid) <==> !(q.Some? && q.value.meta.Absent?))
      && (q.Some? && q.value.meta.Absent? ==> forall size :: CanEnsure(q, rid, size))
  {
    var r := Remove(p, rid, fates, n);
    RemoveSound(p, rid, fates, n);
    assert REMOVING[0..] == REMOVING;
    UndoingRest(Ran(p, [], n, true), rid, 0, fates);
    LogStaysOnTheWayOut(p, r.acts, r.place, rid);
  }

  lemma {:induction false} CalmRemoving(p: Place, r: Ran, rid: string, k: nat, fates: Fates)
    requires r.ok && Calm(fates) && Inv(r.place, rid) && k < 6 && Leaving(k, r.place, rid)
    ensures var q := RunPhase(r, REMOVING[k], rid, fates);
      && (CanRemove(r.place, rid) ==> q.ok)
      && (q.ok ==> (CanRemove(r.place, rid) <==> CanRemove(q.place, rid)))
  {
    var plan := PhasePlan(r.place, REMOVING[k], rid);
    CalmDoes(r, plan.effects, fates);
    if k == 2 && plan.effects != [] { PerformOne(r.place, Unmount); }
    else if k == 3 && plan.effects != [] { PerformOne(r.place, DropTarget); }
    else if k == 5 { DiscardClear(r.place, rid); }
  }

  lemma {:induction false} CalmRemoveRest(p: Place, r: Ran, rid: string, k: nat, fates: Fates)
    requires r.ok && Calm(fates) && Sound(p, r, rid) && Inv(p, rid)
    requires k <= |REMOVING| && Leaving(k, r.place, rid)
    ensures RunPhases(r, REMOVING[k..], rid, fates).ok <==> CanRemove(r.place, rid)
    decreases |REMOVING| - k
  {
    if k < |REMOVING| {
      RemoveStep(p, r, rid, k, fates);
      LogKeeps(p, r.acts, r.place, rid);
      CalmRemoving(p, r, rid, k, fates);
      var next := RunPhase(r, REMOVING[k], rid, fates);
      assert REMOVING[k..][1..] == REMOVING[k + 1..];
      if next.ok { CalmRemoveRest(p, next, rid, k + 1, fates); }
    }
  }

  /** Undisturbed, `remove` succeeds exactly on no directory, or one of this runner that
      hides nothing, has nothing mounted inside and no loop device on its image; then
      nothing is left. */
  lemma {:induction false} RemoveSucceedsExactly(p: Place, rid: string, fates: Fates, n: nat)
    requires Inv(p, rid) && Calm(fates)
    ensures Remove(p, rid, fates, n).ok <==> CanRemove(p, rid)
    ensures Remove(p, rid, fates, n).ok ==> Remove(p, rid, fates, n).place.None?
  {
    RemoveSound(p, rid, fates, n);
    if p.Some? {
      assert REMOVING[0..] == REMOVING;
      CalmRemoveRest(p, Ran(p, [], n, true), rid, 0, fates);
    }
  }
}
