/** What holds at every effect of ensure, remove and mount_all, wherever they stop
    (DiskRestart says when they can be run again). */
module DiskProofs {
  import opened Basics
  import opened DiskPlan

  // ---- what each effect is allowed to meet -------------------------------------------

  predicate Fresh(d: Disk, size: int) {
    d.image == Some(Image(size, Blank, {}))
  }

  predicate Detached(d: Disk) {
    d.target.Some? && d.target.value.mounted.None? && !d.target.value.hidden
  }

  /** A format meets only a blank image of the recorded size, and an image is unlinked
      only when it is whole, has no mount point and no loop device. */
  predicate Permitted(act: Act, rid: string) {
    var e, p := act.effect, act.before;
    if e.MakeDirectory? then p.None?
    else if p.None? then false
    else
      var d := p.value;
      match e
      case MakeDirectory => false
      case BeginMetadata => EmptyDirectory(d)
      case WriteMetadata(bytes, owner) =>
          owner == rid && SizeOk(bytes) && EmptyDirectory(d.(meta := Absent)) && d.meta.Unreadable?
      case CreateImage => Identified(d, rid) && d.image.None? && d.target.None?
      case SetSize(size) => Identified(d, rid) && Fresh(d, 0) && size == d.meta.bytes && d.target.None?
      case Mkfs(_) => Identified(d, rid) && Fresh(d, d.meta.bytes) && d.target.None?
      case MakeTarget => Identified(d, rid) && Whole(d, rid) && d.target.None?
      case Mount => Identified(d, rid) && Whole(d, rid) && Detached(d)
      case SwitchDirect => Identified(d, rid) && Whole(d, rid) && Mounted(d)
      case MakeArea(_) => Identified(d, rid) && Whole(d, rid) && Mounted(d)
      case Unmount => Identified(d, rid) && Whole(d, rid) && Mounted(d) && d.target.value.over == {}
      case DropTarget => Identified(d, rid) && Detached(d)
      case UnlinkImage => Identified(d, rid) && Whole(d, rid) && d.target.None? && d.loops == 0
      case UnlinkMetadata => Identified(d, rid) && d.image.None? && d.target.None?
      case DropDirectory => EmptyDirectory(d)
  }

  /** An image never lacks whole metadata of this runner; a mount point stands on a
      whole image. */
  predicate Inv(p: Place, rid: string) {
    p.Some? ==>
      var d := p.value;
      && (d.meta.Recorded? ==> d.meta.owner == rid && SizeOk(d.meta.bytes))
      && (d.image.Some? ==> d.meta.Recorded? && (d.image.value.size == 0 || d.image.value.size == d.meta.bytes))
      && (d.target.Some? ==> Whole(d, rid))
  }

  lemma {:induction false} ActKeeps(act: Act, rid: string)
    requires Inv(act.before, rid) && Permitted(act, rid)
    ensures Inv(Perform(act.before, act.effect), rid)
  {
  }

  // ---- logs ---------------------------------------------------------------------------

  /** The log leads from `p` to `q` act by act. */
  predicate Leads(p: Place, acts: seq<Act>, q: Place)
    decreases |acts|
  {
    if acts == [] then p == q
    else
      var last := acts[|acts| - 1];
      q == Perform(last.before, last.effect) && Leads(p, acts[..|acts| - 1], last.before)
  }

  ghost predicate AllPermitted(acts: seq<Act>, rid: string) {
    forall k | 0 <= k < |acts| :: Permitted(acts[k], rid)
  }

  lemma {:induction false} LogKeeps(p: Place, acts: seq<Act>, q: Place, rid: string)
    requires Leads(p, acts, q) && AllPermitted(acts, rid) && Inv(p, rid)
    ensures Inv(q, rid)
    decreases |acts|
  {
    if acts == [] {
    } else {
      var last := acts[|acts| - 1];
      LogKeeps(p, acts[..|acts| - 1], last.before, rid);
      ActKeeps(last, rid);
    }
  }

  // ---- one effect, one phase -----------------------------------------------------------

  /** A run as far as it has got: from `p`, all of it permitted. */
  ghost predicate Sound(p: Place, r: Ran, rid: string) {
    Leads(p, r.acts, r.place) && AllPermitted(r.acts, rid)
  }

  lemma {:induction false} DoSound(p: Place, r: Ran, e: Effect, rid: string, fates: Fates)
    requires Sound(p, r, rid) && Permitted(Act(e, r.place), rid)
    ensures Sound(p, Do(r, e, fates), rid)
    ensures Do(r, e, fates).ok ==> Do(r, e, fates).place == Perform(r.place, e)
  {
    var next := Do(r, e, fates);
    if |next.acts| == |r.acts| + 1 {
      assert next.acts[..|r.acts|] == r.acts;
      assert Permitted(next.acts[|r.acts|], rid);
    }
  }

  predicate Clear(p: Place, effects: seq<Effect>, rid: string)
    decreases |effects|
  {
    effects == [] || (Permitted(Act(effects[0], p), rid) && Clear(Perform(p, effects[0]), effects[1..], rid))
  }

  function PerformAll(p: Place, effects: seq<Effect>): Place
    decreases |effects|
  {
    if effects == [] then p else PerformAll(Perform(p, effects[0]), effects[1..])
  }

  lemma {:induction false} EffectsSound(p: Place, r: Ran, effects: seq<Effect>, rid: string, fates: Fates)
    requires r.ok && Sound(p, r, rid) && Clear(r.place, effects, rid)
    ensures Sound(p, DoAll(r, effects, fates), rid)
    ensures DoAll(r, effects, fates).ok ==> DoAll(r, effects, fates).place == PerformAll(r.place, effects)
    decreases |effects|
  {
    if effects == [] {
    } else {
      DoSound(p, r, effects[0], rid, fates);
      if Do(r, effects[0], fates).ok {
        EffectsSound(p, Do(r, effects[0], fates), effects[1..], rid, fates);
      } else {
        assert DoAll(Do(r, effects[0], fates), effects[1..], fates) == Do(r, effects[0], fates);
      }
    }
  }

  lemma {:induction false} OneEffect(p: Place, r: Ran, e: Effect, rid: string, fates: Fates)
    requires r.ok && Sound(p, r, rid) && Permitted(Act(e, r.place), rid)
    ensures Sound(p, DoAll(r, [e], fates), rid)
    ensures DoAll(r, [e], fates).ok ==> DoAll(r, [e], fates).place == Perform(r.place, e)
  {
    assert [e][1..] == [];
    EffectsSound(p, r, [e], rid, fates);
    assert PerformAll(Perform(r.place, e), []) == Perform(r.place, e);
  }

  lemma {:induction false} DescribeClear(p: Place, rid: string, size: int)
    requires p.Some? && EmptyDirectory(p.value) && SizeOk(size)
    ensures Clear(p, [BeginMetadata, WriteMetadata(size, rid)], rid)
    ensures PerformAll(p, [BeginMetadata, WriteMetadata(size, rid)]) == Some(p.value.(meta := Recorded(size, rid)))
  {
    var effects := [BeginMetadata, WriteMetadata(size, rid)];
    assert effects[1..] == [WriteMetadata(size, rid)] && effects[1..][1..] == [];
    var one := Perform(p, BeginMetadata);
    assert Permitted(Act(WriteMetadata(size, rid), one), rid);
    assert Clear(one, effects[1..], rid);
    assert PerformAll(one, effects[1..]) == PerformAll(Perform(one, WriteMetadata(size, rid)), []);
  }

  lemma {:induction false} AllocateClear(p: Place, rid: string)
    requires p.Some? && Identified(p.value, rid) && p.value.image.None? && p.value.target.None?
    ensures
      var d := p.value;
      var effects := [CreateImage, SetSize(d.meta.bytes), Mkfs(Ext4(rid))];
      && Clear(p, effects, rid)
      && PerformAll(p, effects) == Some(d.(image := Some(Image(d.meta.bytes, Ext4(rid), {}))))
  {
    var d := p.value;
    var effects := [CreateImage, SetSize(d.meta.bytes), Mkfs(Ext4(rid))];
    var two := [SetSize(d.meta.bytes), Mkfs(Ext4(rid))];
    var last := [Mkfs(Ext4(rid))];
    assert effects[1..] == two && two[1..] == last && last[1..] == [];
    var p1 := Perform(p, CreateImage);
    var p2 := Perform(p1, SetSize(d.meta.bytes));
    var p3 := Perform(p2, Mkfs(Ext4(rid)));
    assert PerformAll(p3, []) == p3;
    assert Clear(p2, last, rid) && PerformAll(p2, last) == p3;
    assert Clear(p1, two, rid) && PerformAll(p1, two) == p3;
  }

  predicate Provided(d: Disk, area: string) {
    d.image.Some? && area in d.image.value.areas && d.target.Some? && area !in d.target.value.over
  }

  /** What the first k phases of `ensure` have established. */
  predicate Stage(k: nat, p: Place, rid: string, size: int) {
    && (k >= 1 ==> p.Some?)
    && (k >= 2 ==> !p.value.meta.Absent?)
    && (k >= 3 ==> Identified(p.value, rid))
    && (k >= 4 ==> p.value.meta.bytes == size)
    && (k >= 5 ==> p.value.image.Some?)
    && (k >= 6 ==> Whole(p.value, rid))
    && (k >= 7 ==> p.value.target.Some?)
    && (k >= 8 ==> Mounted(p.value))
    && (k >= 9 ==> p.value.target.value.mounted.value.direct)
    && (forall j | 0 <= j < |AREAS| && j + 9 < k :: Provided(p.value, AREAS[j]))
  }

  lemma {:induction false} DirectoryStep(p: Place, r: Ran, rid: string, size: int, fates: Fates)
    requires r.ok && Sound(p, r, rid)
    ensures var q := RunPhase(r, Directory, rid, fates); Sound(p, q, rid) && (q.ok ==> Stage(1, q.place, rid, size))
  {
    if r.place.None? {
      OneEffect(p, r, MakeDirectory, rid, fates);
    }
  }

  lemma {:induction false} DescribeStep(p: Place, r: Ran, rid: string, size: int, fates: Fates)
    requires r.ok && Sound(p, r, rid) && Stage(1, r.place, rid, size) && SizeOk(size)
    ensures var q := RunPhase(r, Describe(size), rid, fates);
        Sound(p, q, rid) && (q.ok ==> Stage(2, q.place, rid, size))
  {
    var d := r.place.value;
    if EmptyDirectory(d) {
      DescribeClear(r.place, rid, size);
      EffectsSound(p, r, [BeginMetadata, WriteMetadata(size, rid)], rid, fates);
    }
  }

  lemma {:induction false} AllocateStep(p: Place, r: Ran, rid: string, size: int, fates: Fates)
    requires r.ok && Sound(p, r, rid) && Stage(4, r.place, rid, size) && Inv(r.place, rid)
    ensures var q := RunPhase(r, Allocate, rid, fates); Sound(p, q, rid) && (q.ok ==> Stage(5, q.place, rid, size))
  {
    var d := r.place.value;
    if d.image.None? {
      AllocateClear(r.place, rid);
      EffectsSound(p, r, [CreateImage, SetSize(d.meta.bytes), Mkfs(Ext4(rid))], rid, fates);
    }
  }

  lemma {:induction false} AimStep(p: Place, r: Ran, rid: string, size: int, fates: Fates)
    requires r.ok && Sound(p, r, rid) && Stage(6, r.place, rid, size)
    ensures var q := RunPhase(r, Aim, rid, fates); Sound(p, q, rid) && (q.ok ==> Stage(7, q.place, rid, size))
  {
    if r.place.value.target.None? { OneEffect(p, r, MakeTarget, rid, fates); }
  }

  lemma {:induction false} AttachStep(p: Place, r: Ran, rid: string, size: int, fates: Fates)
    requires r.ok && Sound(p, r, rid) && Stage(7, r.place, rid, size)
    ensures var q := RunPhase(r, Attach, rid, fates); Sound(p, q, rid) && (q.ok ==> Stage(8, q.place, rid, size))
  {
    if !Mounted(r.place.value) && !r.place.value.target.value.hidden { OneEffect(p, r, Mount, rid, fates); }
  }

  lemma {:induction false} DirectStep(p: Place, r: Ran, rid: string, size: int, fates: Fates)
    requires r.ok && Sound(p, r, rid) && Stage(8, r.place, rid, size)
    ensures var q := RunPhase(r, Direct, rid, fates); Sound(p, q, rid) && (q.ok ==> Stage(9, q.place, rid, size))
  {
    if !r.place.value.target.value.mounted.value.direct { OneEffect(p, r, SwitchDirect, rid, fates); }
  }

  lemma {:induction false} ProvideStep(p: Place, r: Ran, k: nat, rid: string, size: int, fates: Fates)
    requires r.ok && Sound(p, r, rid) && 9 <= k < 14 && Stage(k, r.place, rid, size)
    ensures var q := RunPhase(r, Provide(AREAS[k - 9]), rid, fates);
        Sound(p, q, rid) && (q.ok ==> Stage(k + 1, q.place, rid, size))
  {
    var area := AREAS[k - 9];
    if area !in r.place.value.image.value.areas { OneEffect(p, r, MakeArea(area), rid, fates); }
    var q := RunPhase(r, Provide(area), rid, fates);
    if q.ok {
      forall j | 0 <= j < |AREAS| && j + 9 < k + 1 ensures Provided(q.place.value, AREAS[j]) {
        if j + 9 < k { assert Provided(r.place.value, AREAS[j]); }
      }
    }
  }

  lemma {:induction false} MakeStep(p: Place, r: Ran, rid: string, size: int, k: nat, fates: Fates)
    requires r.ok && Sound(p, r, rid) && Inv(r.place, rid) && SizeOk(size) && k < 6 && Stage(k, r.place, rid, size)
    ensures var q := RunPhase(r, Ensuring(size)[k], rid, fates);
        Sound(p, q, rid) && (q.ok ==> Stage(k + 1, q.place, rid, size))
  {
    if k == 0 { DirectoryStep(p, r, rid, size, fates); }
    else if k == 1 { DescribeStep(p, r, rid, size, fates); }
    else if k == 4 { AllocateStep(p, r, rid, size, fates); }
  }

  lemma {:induction false} EnsureStep(p: Place, r: Ran, rid: string, size: int, k: nat, fates: Fates)
    requires r.ok && Sound(p, r, rid) && Inv(p, rid) && SizeOk(size) && k < |Ensuring(size)|
        && Stage(k, r.place, rid, size)
    ensures var q := RunPhase(r, Ensuring(size)[k], rid, fates);
        Sound(p, q, rid) && (q.ok ==> Stage(k + 1, q.place, rid, size))
  {
    LogKeeps(p, r.acts, r.place, rid);
    if k < 6 { MakeStep(p, r, rid, size, k, fates); }
    else if k == 6 { AimStep(p, r, rid, size, fates); }
    else if k == 7 { AttachStep(p, r, rid, size, fates); }
    else if k == 8 { DirectStep(p, r, rid, size, fates); }
    else { ProvideStep(p, r, k, rid, size, fates); }
  }

  lemma {:induction false} EnsureRest(p: Place, r: Ran, rid: string, size: int, k: nat, fates: Fates)
    requires r.ok && Sound(p, r, rid) && Inv(p, rid) && SizeOk(size) && k <= |Ensuring(size)|
        && Stage(k, r.place, rid, size)
    ensures
      var q := RunPhases(r, Ensuring(size)[k..], rid, fates);
      Sound(p, q, rid) && (q.ok ==> Stage(|Ensuring(size)|, q.place, rid, size))
    decreases |Ensuring(size)| - k
  {
    if k < |Ensuring(size)| {
      EnsureStep(p, r, rid, size, k, fates);
      var next := RunPhase(r, Ensuring(size)[k], rid, fates);
      assert Ensuring(size)[k..][1..] == Ensuring(size)[k + 1..];
      if next.ok { EnsureRest(p, next, rid, size, k + 1, fates); }
    }
  }

  /** What a finished `ensure` leaves: the recorded size, a whole image of its own,
      mounted with direct I/O, with every area on it. */
  predicate Ready(p: Place, rid: string, size: int) {
    Stage(14, p, rid, size)
  }

  /** Every effect of `ensure`, however far it gets, is permitted where it happens. */
  lemma {:induction false} EnsureSound(p: Place, rid: string, size: int, fates: Fates, n: nat)
    requires Inv(p, rid)
    ensures
      var r := Ensure(p, rid, size, fates, n);
      && Leads(p, r.acts, r.place) && AllPermitted(r.acts, rid) && Inv(r.place, rid)
      && (r.ok ==> Ready(r.place, rid, size))
  {
    if SizeOk(size) {
      assert Ensuring(size)[0..] == Ensuring(size);
      EnsureRest(p, Ran(p, [], n, true), rid, size, 0, fates);
    }
    var r := Ensure(p, rid, size, fates, n);
    LogKeeps(p, r.acts, r.place, rid);
  }

  /** One phase further, or stopped there. */
  lemma {:induction false} PhaseOn(r: Ran, phases: seq<Phase>, k: nat, rid: string, fates: Fates)
    requires r.ok && k < |phases|
    ensures RunPhases(r, phases[k..], rid, fates)
        == RunPhases(RunPhase(r, phases[k], rid, fates), phases[k + 1..], rid, fates)
  {
    assert phases[k..][1..] == phases[k + 1..];
  }

  // ---- removal --------------------------------------------------------------------------

  /** What the first k phases of `remove` have established. */
  predicate Leaving(k: nat, p: Place, rid: string) {
    && (k <= 5 ==> p.Some?)
    && (1 <= k <= 5 ==> Identified(p.value, rid))
    && (2 <= k <= 5 && p.value.image.Some? ==> Whole(p.value, rid))
    && (3 <= k <= 5 ==> !Mounted(p.value))
    && (4 <= k <= 5 ==> p.value.target.None?)
    && (k == 5 && p.value.image.Some? ==> p.value.loops == 0)
    && (k >= 6 ==> p.None?)
  }

  lemma {:induction false} DetachStep(p: Place, r: Ran, rid: string, fates: Fates)
    requires r.ok && Sound(p, r, rid) && Leaving(2, r.place, rid) && Inv(r.place, rid)
    ensures var q := RunPhase(r, Detach, rid, fates); Sound(p, q, rid) && (q.ok ==> Leaving(3, q.place, rid))
  {
    if Mounted(r.place.value) && r.place.value.target.value.over == {} { OneEffect(p, r, Unmount, rid, fates); }
  }

  lemma {:induction false} UnaimStep(p: Place, r: Ran, rid: string, fates: Fates)
    requires r.ok && Sound(p, r, rid) && Leaving(3, r.place, rid)
    ensures var q := RunPhase(r, Unaim, rid, fates); Sound(p, q, rid) && (q.ok ==> Leaving(4, q.place, rid))
  {
    if r.place.value.target.Some? && !r.place.value.target.value.hidden { OneEffect(p, r, DropTarget, rid, fates); }
  }

  lemma {:induction false} DiscardClear(p: Place, rid: string)
    requires Leaving(5, p, rid)
    ensures Clear(p, PhasePlan(p, Discard, rid).effects, rid)
    ensures PerformAll(p, PhasePlan(p, Discard, rid).effects) == None
  {
    var effects := PhasePlan(p, Discard, rid).effects;
    var two := [UnlinkMetadata, DropDirectory];
    var bare := if p.value.image.Some? then Perform(p, UnlinkImage) else p;
    var empty := Perform(bare, UnlinkMetadata);
    var last := [DropDirectory];
    assert last[1..] == [] && PerformAll(None, []) == None;
    assert Clear(empty, last, rid) && PerformAll(empty, last) == None;
    assert two[1..] == last;
    assert Clear(bare, two, rid) && PerformAll(bare, two) == None;
    if p.value.image.Some? {
      assert effects == [UnlinkImage] + two;
      assert effects[1..] == two;
    } else {
      assert effects == two;
    }
  }

  lemma {:induction false} RemoveStep(p: Place, r: Ran, rid: string, k: nat, fates: Fates)
    requires r.ok && Sound(p, r, rid) && Inv(p, rid) && k < |REMOVING| && Leaving(k, r.place, rid)
    ensures var q := RunPhase(r, REMOVING[k], rid, fates); Sound(p, q, rid) && (q.ok ==> Leaving(k + 1, q.place, rid))
  {
    LogKeeps(p, r.acts, r.place, rid);
    if k == 2 { DetachStep(p, r, rid, fates); }
    else if k == 3 { UnaimStep(p, r, rid, fates); }
    else if k == 5 {
      DiscardClear(r.place, rid);
      EffectsSound(p, r, PhasePlan(r.place, Discard, rid).effects, rid, fates);
    }
  }

  lemma {:induction false} RemoveRest(p: Place, r: Ran, rid: string, k: nat, fates: Fates)
    requires r.ok && Sound(p, r, rid) && Inv(p, rid) && k <= |REMOVING| && Leaving(k, r.place, rid)
    ensures
      var q := RunPhases(r, REMOVING[k..], rid, fates);
      Sound(p, q, rid) && (q.ok ==> q.place.None?)
    decreases |REMOVING| - k
  {
    if k < |REMOVING| {
      RemoveStep(p, r, rid, k, fates);
      var next := RunPhase(r, REMOVING[k], rid, fates);
      assert REMOVING[k..][1..] == REMOVING[k + 1..];
      if next.ok { RemoveRest(p, next, rid, k + 1, fates); }
    }
  }

  /** Every effect of `remove`, however far it gets, is permitted where it happens:
      in particular the image goes only unmounted and with no loop device. */
  lemma {:induction false} RemoveSound(p: Place, rid: string, fates: Fates, n: nat)
    requires Inv(p, rid)
    ensures
      var r := Remove(p, rid, fates, n);
      && Leads(p, r.acts, r.place) && AllPermitted(r.acts, rid) && Inv(r.place, rid)
      && (r.ok ==> r.place.None?)
  {
    if p.Some? {
      assert REMOVING[0..] == REMOVING;
      RemoveRest(p, Ran(p, [], n, true), rid, 0, fates);
    }
    var r := Remove(p, rid, fates, n);
    LogKeeps(p, r.acts, r.place, rid);
  }

  // ---- an existing image ------------------------------------------------------------------

  predicate Mild(e: Effect) {
    e.MakeTarget? || e.Mount? || e.SwitchDirect? || e.MakeArea?
  }

  /** Same metadata, and the same image but for its directories. */
  predicate SameImage(d: Disk, later: Disk) {
    && later.meta == d.meta && later.stray == d.stray && later.loops == d.loops
    && d.image.Some? && later.image.Some?
    && later.image.value.size == d.image.value.size && later.image.value.format == d.image.value.format
  }

  ghost predicate Gentle(d: Disk, r: Ran) {
    && r.place.Some? && SameImage(d, r.place.value)
    && forall k | 0 <= k < |r.acts| :: Mild(r.acts[k].effect)
  }

  lemma {:induction false} MildEffects(d: Disk, r: Ran, effects: seq<Effect>, fates: Fates)
    requires Gentle(d, r) && forall k | 0 <= k < |effects| :: Mild(effects[k])
    ensures Gentle(d, DoAll(r, effects, fates))
    decreases |effects|
  {
    if effects != [] && r.ok {
      assert Mild(effects[0]);
      MildEffects(d, Do(r, effects[0], fates), effects[1..], fates);
    }
  }

  lemma {:induction false} MildRest(d: Disk, r: Ran, rid: string, size: int, k: nat, fates: Fates)
    requires Gentle(d, r) && !d.meta.Absent? && k <= |Ensuring(size)|
    ensures Gentle(d, RunPhases(r, Ensuring(size)[k..], rid, fates))
    decreases |Ensuring(size)| - k
  {
    if k < |Ensuring(size)| && r.ok {
      var phase := Ensuring(size)[k];
      MildEffects(d, r, PhasePlan(r.place, phase, rid).effects, fates);
      assert Ensuring(size)[k..][1..] == Ensuring(size)[k + 1..];
      MildRest(d, RunPhase(r, phase, rid, fates), rid, size, k + 1, fates);
    }
  }

  /** `ensure` never formats, resizes or replaces an image that exists, nor rewrites
      its metadata: it only mounts it and adds directories, wherever it stops. */
  lemma {:induction false} ExistingImageIsKept(d: Disk, rid: string, size: int, fates: Fates, n: nat)
    requires d.image.Some? && !d.meta.Absent?
    ensures Gentle(d, Ensure(Some(d), rid, size, fates, n))
  {
    assert Ensuring(size)[0..] == Ensuring(size);
    MildRest(d, Ran(Some(d), [], n, true), rid, size, 0, fates);
  }

  function ImageOf(p: Place): Option<Image> {
    if p.Some? then p.value.image else None
  }

  lemma {:induction false} ImageWasCreated(p: Place, acts: seq<Act>, q: Place) returns (j: nat)
    requires Leads(p, acts, q) && ImageOf(p).None? && ImageOf(q).Some?
    ensures j < |acts| && acts[j].effect.CreateImage?
    decreases |acts|
  {
    var last := acts[|acts| - 1];
    if last.effect.CreateImage? {
      j := |acts| - 1;
    } else {
      j := ImageWasCreated(p, acts[..|acts| - 1], last.before);
    }
  }

  lemma {:induction false} PrefixLeads(p: Place, acts: seq<Act>, q: Place, k: nat)
    requires Leads(p, acts, q) && k < |acts|
    ensures Leads(p, acts[..k], acts[k].before)
    decreases |acts|
  {
    var init := acts[..|acts| - 1];
    if k < |acts| - 1 {
      PrefixLeads(p, init, acts[|acts| - 1].before, k);
      assert init[..k] == acts[..k] && init[k] == acts[k];
    }
  }

  /** A format happens only when there was no image, and after this same call created
      the file, exclusively, and found it blank. */
  lemma {:induction false} FormatsOnlyWhatItMade(p: Place, rid: string, size: int, fates: Fates, n: nat, k: nat)
    returns (j: nat)
    requires Inv(p, rid) && k < |Ensure(p, rid, size, fates, n).acts|
    requires Ensure(p, rid, size, fates, n).acts[k].effect.Mkfs?
    ensures ImageOf(p).None?
    ensures
      var acts := Ensure(p, rid, size, fates, n).acts;
      j < k && acts[j].effect.CreateImage? && Permitted(acts[j], rid) && Permitted(acts[k], rid)
  {
    var r := Ensure(p, rid, size, fates, n);
    EnsureSound(p, rid, size, fates, n);
    if ImageOf(p).Some? {
      ExistingImageIsKept(p.value, rid, size, fates, n);
    }
    PrefixLeads(p, r.acts, r.place, k);
    assert Permitted(r.acts[k], rid);
    j := ImageWasCreated(p, r.acts[..k], r.acts[k].before);
    assert r.acts[..k][j] == r.acts[j];
  }
}
