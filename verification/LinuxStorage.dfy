/** The storage class of agent/runtimes/linux_storage.py, step by step over the
    directories it changes. Its root directory, lock file and ownership checks are
    taken to have passed. */
module LinuxStorage {
  import opened Basics
  import opened DiskPlan
  import opened DiskProofs
  import opened StorageRuns

  /** How a call ends: normally, or with an exception that nothing catches. */
  datatype Outcome = Fine | Raised {
    predicate IsFailure() { Raised? }
    function PropagateFailure(): Outcome { this }
  }

  lemma {:induction false} OnlyOne(before: Store, after: Store, rid: string)
    requires after - {rid} == before - {rid}
    ensures after == Put(before, rid, At(after, rid))
  {
    forall k | k != rid ensures (k in after <==> k in before) && (k in after ==> after[k] == before[k]) {
      assert k in after - {rid} <==> k in after;
      assert k in before - {rid} <==> k in before;
    }
  }

  class LinuxStorage {
    var store: Store
    var n: nat
    const fates: Fates
    ghost var log: seq<Act>

    constructor (fates: Fates)
      ensures store == map[] && n == 0 && this.fates == fates
    {
      store, n, log := map[], 0, [];
      this.fates := fates;
    }

    /** The call under way, as the specification describes it. */
    ghost function Now(rid: string, o: Outcome): Ran
      reads this
    {
      Ran(At(store, rid), log, n, o.Fine?)
    }

    ghost predicate OthersSame(before: Store, rid: string)
      reads this
    {
      store - {rid} == before - {rid}
    }

    /** One effect: a system call or command that happens, or raises. */
    method Do(rid: string, e: Effect) returns (o: Outcome)
      modifies this
      ensures Now(rid, o) == DiskPlan.Do(old(Now(rid, Fine)), e, fates)
      ensures OthersSame(old(store), rid)
    {
      var fate := fates(n);
      n := n + 1;
      if fate.Leaves? && e.Mkfs? {
        Apply(rid, Mkfs(fate.left));
        return Raised;
      }
      if !fate.Happens? { return Raised; }
      Apply(rid, e);
      return Fine;
    }

    method Apply(rid: string, e: Effect)
      modifies this
      ensures At(store, rid) == Perform(At(old(store), rid), e) && log == old(log) + [Act(e, At(old(store), rid))]
          && n == old(n)
      ensures OthersSame(old(store), rid)
    {
      log := log + [Act(e, At(store, rid))];
      store := Put(store, rid, Perform(At(store, rid), e));
    }

    method MakeDirectory(rid: string) returns (o: Outcome)
      modifies this
      ensures Now(rid, o) == RunPhase(old(Now(rid, Fine)), Phase.Directory, rid, fates) && OthersSame(old(store), rid)
    {
      if rid !in store {
        :- Do(rid, Effect.MakeDirectory);
      }
      return Fine;
    }

    method Describe(rid: string, size: int) returns (o: Outcome)
      modifies this
      ensures Now(rid, o) == RunPhase(old(Now(rid, Fine)), Phase.Describe(size), rid, fates)
          && OthersSame(old(store), rid)
    {
      if rid !in store { return Raised; }
      if store[rid].meta.Absent? {
        if store[rid].image.Some? || store[rid].target.Some? || store[rid].stray { return Raised; }
        ghost var effects := [BeginMetadata, WriteMetadata(size, rid)];
        assert effects[1..] == [WriteMetadata(size, rid)];
        assert DoAll(Now(rid, Fine), effects, fates)
            == DoAll(DiskPlan.Do(Now(rid, Fine), effects[0], fates), effects[1..], fates);
        :- Do(rid, BeginMetadata);
        :- Do(rid, WriteMetadata(size, rid));
      }
      return Fine;
    }

    /** `_metadata` */
    method Metadata(rid: string) returns (o: Outcome)
      ensures Now(rid, o) == RunPhase(Now(rid, Fine), Identify, rid, fates)
    {
      if rid !in store || !store[rid].meta.Recorded? { return Raised; }
      if store[rid].meta.owner != rid || !SizeOk(store[rid].meta.bytes) || store[rid].stray { return Raised; }
      return Fine;
    }

    method MatchSize(rid: string, size: int) returns (o: Outcome)
      ensures Now(rid, o) == RunPhase(Now(rid, Fine), Match(size), rid, fates)
    {
      if rid !in store || !store[rid].meta.Recorded? || store[rid].meta.bytes != size { return Raised; }
      return Fine;
    }

    method Allocate(rid: string) returns (o: Outcome)
      modifies this
      ensures Now(rid, o) == RunPhase(old(Now(rid, Fine)), Phase.Allocate, rid, fates) && OthersSame(old(store), rid)
    {
      if rid !in store { return Raised; }
      if store[rid].image.None? {
        if !store[rid].meta.Recorded? { return Raised; }
        var bytes := store[rid].meta.bytes;
        ghost var effects := [CreateImage, SetSize(bytes), Mkfs(Ext4(rid))];
        assert effects[1..] == [SetSize(bytes), Mkfs(Ext4(rid))] && effects[1..][1..] == [Mkfs(Ext4(rid))];
        assert DoAll(Now(rid, Fine), effects, fates)
            == DoAll(DiskPlan.Do(Now(rid, Fine), CreateImage, fates), effects[1..], fates);
        :- Do(rid, CreateImage);
        assert DoAll(Now(rid, Fine), effects[1..], fates)
            == DoAll(DiskPlan.Do(Now(rid, Fine), SetSize(bytes), fates), effects[1..][1..], fates);
        :- Do(rid, SetSize(bytes));
        :- Do(rid, Mkfs(Ext4(rid)));
      }
      return Fine;
    }

    /** `_filesystem` */
    method Filesystem(rid: string) returns (o: Outcome)
      ensures Now(rid, o) == RunPhase(Now(rid, Fine), Inspect, rid, fates)
    {
      if rid !in store || store[rid].image.None? || !store[rid].meta.Recorded? { return Raised; }
      var image := store[rid].image.value;
      if image.size != store[rid].meta.bytes || image.format != Ext4(rid) { return Raised; }
      return Fine;
    }

    method MakeTarget(rid: string) returns (o: Outcome)
      modifies this
      ensures Now(rid, o) == RunPhase(old(Now(rid, Fine)), Aim, rid, fates) && OthersSame(old(store), rid)
    {
      if rid !in store { return Raised; }
      if store[rid].target.None? {
        :- Do(rid, Effect.MakeTarget);
      }
      return Fine;
    }

    method Attach(rid: string) returns (o: Outcome)
      modifies this
      ensures Now(rid, o) == RunPhase(old(Now(rid, Fine)), Phase.Attach, rid, fates) && OthersSame(old(store), rid)
    {
      if rid !in store { return Raised; }
      if store[rid].target.None? { return Raised; }
      if store[rid].target.value.mounted.None? {
        if store[rid].target.value.hidden { return Raised; }
        :- Do(rid, Mount);
      }
      return Fine;
    }

    /** `_direct_io` */
    method DirectIo(rid: string) returns (o: Outcome)
      modifies this
      ensures Now(rid, o) == RunPhase(old(Now(rid, Fine)), Direct, rid, fates) && OthersSame(old(store), rid)
    {
      if rid !in store || !Mounted(store[rid]) { return Raised; }
      if !store[rid].target.value.mounted.value.direct {
        :- Do(rid, SwitchDirect);
      }
      return Fine;
    }

    method Provide(rid: string, area: string) returns (o: Outcome)
      modifies this
      ensures Now(rid, o) == RunPhase(old(Now(rid, Fine)), Phase.Provide(area), rid, fates)
          && OthersSame(old(store), rid)
    {
      if rid !in store || store[rid].image.None? || store[rid].target.None? { return Raised; }
      var covered := area in store[rid].target.value.over;
      if area !in store[rid].image.value.areas {
        assert [MakeArea(area)][1..] == [];
        assert PhasePlan(At(store, rid), Phase.Provide(area), rid).effects == [MakeArea(area)];
        assert DoAll(Now(rid, Fine), [MakeArea(area)], fates) == DiskPlan.Do(Now(rid, Fine), MakeArea(area), fates);
        :- Do(rid, MakeArea(area));
      }
      return if covered then Raised else Fine;
    }

    /** `ensure` */
    method Ensure(rid: string, size: int) returns (o: Outcome)
      modifies this
      ensures Now(rid, o) == DiskPlan.Ensure(At(old(store), rid), rid, size, fates, old(n))
          && OthersSame(old(store), rid)
    {
      log := [];
      if !SizeOk(size) { return Raised; }
      :- Identity(rid, size);
      :- Imaging(rid, size);
      :- Connect(rid, size);
      ghost var all := Ensuring(size);
      for k := 0 to |AREAS|
        invariant RunPhases(Now(rid, Fine), all[9 + k..], rid, fates)
            == DiskPlan.Ensure(At(old(store), rid), rid, size, fates, old(n))
        invariant OthersSame(old(store), rid)
      {
        assert all[9 + k..][0] == Phase.Provide(AREAS[k]) && all[9 + k..][1..] == all[10 + k..];
        :- Provide(rid, AREAS[k]);
      }
      return Fine;
    }

    /** `ensure` up to its own metadata, then up to a whole image. */
    method Identity(rid: string, size: int) returns (o: Outcome)
      modifies this
      ensures RunPhases(Now(rid, o), Ensuring(size)[3..], rid, fates)
          == RunPhases(old(Now(rid, Fine)), Ensuring(size), rid, fates)
      ensures OthersSame(old(store), rid)
    {
      PhaseOn(Now(rid, Fine), Ensuring(size), 0, rid, fates);
      :- MakeDirectory(rid);
      PhaseOn(Now(rid, Fine), Ensuring(size), 1, rid, fates);
      :- Describe(rid, size);
      PhaseOn(Now(rid, Fine), Ensuring(size), 2, rid, fates);
      :- Metadata(rid);
      return Fine;
    }

    method Imaging(rid: string, size: int) returns (o: Outcome)
      modifies this
      ensures RunPhases(Now(rid, o), Ensuring(size)[6..], rid, fates)
          == RunPhases(old(Now(rid, Fine)), Ensuring(size)[3..], rid, fates)
      ensures OthersSame(old(store), rid)
    {
      PhaseOn(Now(rid, Fine), Ensuring(size), 3, rid, fates);
      :- MatchSize(rid, size);
      PhaseOn(Now(rid, Fine), Ensuring(size), 4, rid, fates);
      :- Allocate(rid);
      PhaseOn(Now(rid, Fine), Ensuring(size), 5, rid, fates);
      :- Filesystem(rid);
      return Fine;
    }

    /** `ensure` from there to a mount with direct I/O. */
    method Connect(rid: string, size: int) returns (o: Outcome)
      modifies this
      ensures RunPhases(Now(rid, o), Ensuring(size)[9..], rid, fates)
          == RunPhases(old(Now(rid, Fine)), Ensuring(size)[6..], rid, fates)
      ensures OthersSame(old(store), rid)
    {
      PhaseOn(Now(rid, Fine), Ensuring(size), 6, rid, fates);
      :- MakeTarget(rid);
      PhaseOn(Now(rid, Fine), Ensuring(size), 7, rid, fates);
      :- Attach(rid);
      PhaseOn(Now(rid, Fine), Ensuring(size), 8, rid, fates);
      :- DirectIo(rid);
      return Fine;
    }

    /** `remove` */
    method Remove(rid: string) returns (o: Outcome)
      modifies this
      ensures Now(rid, o) == DiskPlan.Remove(At(old(store), rid), rid, fates, old(n)) && OthersSame(old(store), rid)
    {
      log := [];
      if rid !in store { return Fine; }
      PhaseOn(Now(rid, Fine), REMOVING, 0, rid, fates);
      :- Metadata(rid);
      PhaseOn(Now(rid, Fine), REMOVING, 1, rid, fates);
      if store[rid].image.Some? {
        :- Filesystem(rid);
      }
      PhaseOn(Now(rid, Fine), REMOVING, 2, rid, fates);
      :- Detach(rid);
      :- Empty(rid);
      return Fine;
    }

    /** `remove` once nothing is mounted. */
    method Empty(rid: string) returns (o: Outcome)
      modifies this
      ensures Now(rid, o) == RunPhases(old(Now(rid, Fine)), REMOVING[3..], rid, fates) && OthersSame(old(store), rid)
    {
      PhaseOn(Now(rid, Fine), REMOVING, 3, rid, fates);
      :- DropTarget(rid);
      PhaseOn(Now(rid, Fine), REMOVING, 4, rid, fates);
      if rid !in store || (store[rid].image.Some? && store[rid].loops > 0) { return Raised; }
      PhaseOn(Now(rid, Fine), REMOVING, 5, rid, fates);
      :- Discard(rid);
      return Fine;
    }

    method Detach(rid: string) returns (o: Outcome)
      modifies this
      ensures Now(rid, o) == RunPhase(old(Now(rid, Fine)), Phase.Detach, rid, fates) && OthersSame(old(store), rid)
    {
      if rid !in store { return Raised; }
      if Mounted(store[rid]) {
        if store[rid].target.value.over != {} { return Raised; }
        :- Do(rid, Unmount);
      }
      return Fine;
    }

    method DropTarget(rid: string) returns (o: Outcome)
      modifies this
      ensures Now(rid, o) == RunPhase(old(Now(rid, Fine)), Unaim, rid, fates) && OthersSame(old(store), rid)
    {
      if rid !in store { return Raised; }
      if store[rid].target.Some? {
        if store[rid].target.value.hidden { return Raised; }
        :- Do(rid, Effect.DropTarget);
      }
      return Fine;
    }

    /** The image, its metadata and then the empty directory go; nothing else is touched. */
    method Discard(rid: string) returns (o: Outcome)
      modifies this
      ensures Now(rid, o) == RunPhase(old(Now(rid, Fine)), Phase.Discard, rid, fates) && OthersSame(old(store), rid)
    {
      if rid !in store { return Raised; }
      ghost var last := [UnlinkMetadata, DropDirectory];
      ghost var plan := PhasePlan(At(store, rid), Phase.Discard, rid).effects;
      ghost var start := Now(rid, Fine);
      if store[rid].image.Some? {
        assert plan[1..] == last;
        assert DoAll(start, plan, fates) == DoAll(DiskPlan.Do(start, UnlinkImage, fates), last, fates);
        :- Do(rid, UnlinkImage);
      } else {
        assert plan == last;
      }
      assert last[1..] == [DropDirectory];
      assert DoAll(Now(rid, Fine), last, fates)
          == DoAll(DiskPlan.Do(Now(rid, Fine), UnlinkMetadata, fates), last[1..], fates);
      :- Do(rid, UnlinkMetadata);
      :- Do(rid, DropDirectory);
      return Fine;
    }

    /** `mount_all`, over the sorted names in the root. */
    method MountAll(names: seq<string>) returns (o: Outcome)
      modifies this
      ensures Booted(store, n, o.Fine?) == StorageRuns.MountAll(old(store), names, fates, old(n))
    {
      ghost var whole := StorageRuns.MountAll(store, names, fates, n);
      for k := 0 to |names|
        invariant StorageRuns.MountAll(store, names[k..], fates, n) == whole
      {
        assert names[k..][1..] == names[k + 1..];
        if names[k] != ".lock" {
          var rid := Checked(names[k]);
          if rid.None? { return Raised; }
          ghost var before := store;
          o := Resume(rid.value);
          OnlyOne(before, store, rid.value);
          if o.Raised? { return; }
        }
      }
      return Fine;
    }

    method Resume(rid: string) returns (o: Outcome)
      modifies this
      ensures Now(rid, o) == DiskPlan.Resume(At(old(store), rid), rid, fates, old(n)) && OthersSame(old(store), rid)
    {
      log := [];
      :- Metadata(rid);
      :- Filesystem(rid);
      o := Ensure(rid, store[rid].meta.bytes);
    }
  }
}
