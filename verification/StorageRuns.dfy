/** Every runner's directory under one storage root, over whole lives of the worker:
    calls that stop anywhere, boots, reboots, and what root does behind the agent's
    back to mounts and loop devices. */
module StorageRuns {
  import opened Basics
  import opened DiskPlan
  import opened DiskProofs
  import opened DiskRestart

  type Store = map<string, Disk>

  function At(store: Store, rid: string): Place {
    if rid in store then Some(store[rid]) else None
  }

  function Put(store: Store, rid: string, p: Place): Store {
    if p.Some? then store[rid := p.value] else store - {rid}
  }

  // ---- runner ids ------------------------------------------------------------------------

  predicate IsHex(c: char) {
    IsDigit(c) || 'a' <= c <= 'f' || 'A' <= c <= 'F'
  }

  function LowerChar(c: char): char {
    if 'A' <= c <= 'F' then (c as int + 32) as char else c
  }

  /** A UUID in lower case, or nothing. */
  function Checked(name: string): Option<string> {
    if |name| == 36 && forall i | 0 <= i < 36 :: if i in {8, 13, 18, 23} then name[i] == '-' else IsHex(name[i])
    then Some(seq(36, i requires 0 <= i < |name| => LowerChar(name[i]))) else None
  }

  /** The letters and digits of a UUID, in order, to their lower case. */
  const UPPER := "0123456789ABCDEF"
  const LOWER := "0123456789abcdef"

  ghost predicate Spells(c: char, low: char) {
    exists d | 0 <= d < 16 :: (c == UPPER[d] || c == LOWER[d]) && low == LOWER[d]
  }

  lemma {:induction false} SpellsExactly(c: char, low: char)
    ensures Spells(c, low) <==> IsHex(c) && low == LowerChar(c)
  {
    assert forall d | 0 <= d < 10 :: UPPER[d] == LOWER[d] == (d + 48) as char;
    assert forall d | 10 <= d < 16 :: UPPER[d] == (d + 55) as char && LOWER[d] == (d + 87) as char;
    if IsHex(c) {
      var d := if IsDigit(c) then c as int - 48 else if c <= 'F' then c as int - 55 else c as int - 87;
      assert UPPER[d] == c || LOWER[d] == c;
    }
  }

  /** Exactly which names are runners': hyphens after 8, 12, 16 and 20 of 32 hexadecimal
      digits; and the runner's id is the name in lower case. */
  lemma {:induction false} CheckedExactly(name: string, rid: string)
    ensures Checked(name) == Some(rid) <==>
      (|name| == 36 == |rid|
       && forall i | 0 <= i < 36 ::
            if i == 8 || i == 13 || i == 18 || i == 23 then name[i] == '-' == rid[i] else Spells(name[i], rid[i]))
  {
    assert LowerChar('-') == '-';
    forall c, low ensures Spells(c, low) <==> IsHex(c) && low == LowerChar(c) { SpellsExactly(c, low); }
    hide Spells, IsHex, LowerChar;
    if Checked(name).Some? {
      assert forall i | 0 <= i < 36 :: Checked(name).value[i] == LowerChar(name[i]);
      if |rid| == 36 && forall i | 0 <= i < 36 :: rid[i] == LowerChar(name[i]) { assert Checked(name).value == rid; }
    }
  }

  // ---- boot ---------------------------------------------------------------------------------

  datatype Booted = Booted(store: Store, n: nat, ok: bool)

  /** `mount_all` over the root's entries in name order: it stops at the first one
      it cannot mount. */
  function MountAll(store: Store, names: seq<string>, fates: Fates, n: nat): Booted
    decreases |names|
  {
    if names == [] then Booted(store, n, true)
    else if names[0] == ".lock" then MountAll(store, names[1..], fates, n)
    else if Checked(names[0]).None? then Booted(store, n, false)
    else
      var rid := Checked(names[0]).value;
      var r := Resume(At(store, rid), rid, fates, n);
      var next := Put(store, rid, r.place);
      if r.ok then MountAll(next, names[1..], fates, r.n) else Booted(next, r.n, false)
  }

  // ---- events ---------------------------------------------------------------------------------

  /** What happens to a directory other than by the agent. */
  datatype Outside =
    | Reboot | AttachLoop | DetachLoops | LazyUnmount | MountOver(place: string) | ClearOver
    | LeaveFiles | ClearFiles | AddStray | ClearStray | LoseArea(area: string)

  function Meddle(d: Disk, what: Outside): Disk {
    match what
    case Reboot => OnTarget(d.(loops := 0), (t: Target) => t.(mounted := None, over := {}))
    case AttachLoop => if d.image.Some? then d.(loops := d.loops + 1) else d
    case DetachLoops => d.(loops := 0)
    case LazyUnmount => if Mounted(d) then OnTarget(d, (t: Target) => t.(mounted := None)).(loops := d.loops + 1) else d
    case MountOver(place) => if Mounted(d) then OnTarget(d, (t: Target) => t.(over := t.over + {place})) else d
    case ClearOver => OnTarget(d, (t: Target) => t.(over := {}))
    case LeaveFiles => OnTarget(d, (t: Target) => if t.mounted.None? then t.(hidden := true) else t)
    case ClearFiles => OnTarget(d, (t: Target) => if t.mounted.None? then t.(hidden := false) else t)
    case AddStray => d.(stray := true)
    case ClearStray => d.(stray := false)
    case LoseArea(area) => OnImage(d, (i: Image) => i.(areas := i.areas - {area}))
  }

  datatype Event =
    | EnsureCall(rid: string, size: int, fates: Fates)
    | RemoveCall(rid: string, fates: Fates)
    | Boot(names: seq<string>, fates: Fates)
    | Meddling(rid: string, what: Outside)

  function Step(store: Store, e: Event): Store {
    match e
    case EnsureCall(rid, size, fates) => Put(store, rid, Ensure(At(store, rid), rid, size, fates, 0).place)
    case RemoveCall(rid, fates) => Put(store, rid, Remove(At(store, rid), rid, fates, 0).place)
    case Boot(names, fates) => MountAll(store, names, fates, 0).store
    case Meddling(rid, what) => if rid in store then store[rid := Meddle(store[rid], what)] else store
  }

  function Exec(store: Store, events: seq<Event>): Store
    decreases |events|
  {
    if events == [] then store else Exec(Step(store, events[0]), events[1..])
  }

  ghost predicate AllInv(store: Store) {
    forall rid | rid in store :: Inv(Some(store[rid]), rid)
  }

  // ---- one step -----------------------------------------------------------------------------------

  /** Same metadata, and the image still there with its size and filesystem. */
  predicate Preserved(p: Place, q: Place) {
    p.Some? && q.Some? && q.value.meta == p.value.meta
    && (p.value.image.Some? ==> q.value.image.Some? && q.value.image.value.size == p.value.image.value.size
                                && q.value.image.value.format == p.value.image.value.format)
  }

  lemma {:induction false} MeddleKeeps(d: Disk, what: Outside, rid: string)
    requires Inv(Some(d), rid)
    ensures Inv(Some(Meddle(d, what)), rid)
    ensures Preserved(Some(d), Some(Meddle(d, what)))
    ensures Meddle(d, what).image.None? <==> d.image.None?
  {
  }

  lemma {:induction false} ResumeKeeps(p: Place, rid: string, fates: Fates, n: nat)
    requires Inv(p, rid)
    ensures Inv(Resume(p, rid, fates, n).place, rid)
    ensures p.Some? ==> Preserved(p, Resume(p, rid, fates, n).place)
    ensures p.None? ==> Resume(p, rid, fates, n).place.None?
    ensures forall k | 0 <= k < |Resume(p, rid, fates, n).acts| :: Mild(Resume(p, rid, fates, n).acts[k].effect)
  {
    if p.Some? && Identified(p.value, rid) && Whole(p.value, rid) {
      EnsureSound(p, rid, p.value.meta.bytes, fates, n);
      ExistingImageIsKept(p.value, rid, p.value.meta.bytes, fates, n);
    }
  }

  /** A boot, wherever it stops, writes no metadata and formats nothing: every image
      keeps its size and filesystem, and no directory comes or goes. */
  lemma {:induction false} BootKeepsImages(store: Store, names: seq<string>, fates: Fates, n: nat)
    requires AllInv(store)
    ensures AllInv(MountAll(store, names, fates, n).store)
    ensures MountAll(store, names, fates, n).store.Keys == store.Keys
    ensures forall rid | rid in store :: Preserved(At(store, rid), At(MountAll(store, names, fates, n).store, rid))
    decreases |names|
  {
    if names != [] && names[0] == ".lock" {
      BootKeepsImages(store, names[1..], fates, n);
    } else if names != [] && Checked(names[0]).Some? {
      var rid := Checked(names[0]).value;
      ResumeKeeps(At(store, rid), rid, fates, n);
      var r := Resume(At(store, rid), rid, fates, n);
      var next := Put(store, rid, r.place);
      assert AllInv(next) && next.Keys == store.Keys;
      if r.ok { BootKeepsImages(next, names[1..], fates, r.n); }
    }
  }

  lemma {:induction false} EnsureKeeps(p: Place, rid: string, size: int, fates: Fates)
    requires Inv(p, rid)
    ensures Inv(Ensure(p, rid, size, fates, 0).place, rid)
    ensures p.Some? && p.value.meta.Recorded? ==> Preserved(p, Ensure(p, rid, size, fates, 0).place)
  {
    EnsureSound(p, rid, size, fates, 0);
    if p.Some? && p.value.meta.Recorded? {
      MetadataRest(p.value, Ran(p, [], 0, true), rid, size, 0, fates);
      assert Ensuring(size)[0..] == Ensuring(size);
      if p.value.image.Some? { ExistingImageIsKept(p.value, rid, size, fates, 0); }
    }
  }

  predicate LeavesMetadata(e: Effect) {
    !(e.MakeDirectory? || e.BeginMetadata? || e.WriteMetadata? || e.UnlinkMetadata? || e.DropDirectory?)
  }

  lemma {:induction false} MetadataEffects(d: Disk, r: Ran, effects: seq<Effect>, fates: Fates)
    requires r.place.Some? && r.place.value.meta == d.meta && forall k | 0 <= k < |effects| ::
        LeavesMetadata(effects[k])
    ensures DoAll(r, effects, fates).place.Some? && DoAll(r, effects, fates).place.value.meta == d.meta
    decreases |effects|
  {
    if effects != [] && r.ok {
      assert LeavesMetadata(effects[0]);
      MetadataEffects(d, Do(r, effects[0], fates), effects[1..], fates);
    }
  }

  lemma {:induction false} MetadataRest(d: Disk, r: Ran, rid: string, size: int, k: nat, fates: Fates)
    requires r.place.Some? && r.place.value.meta == d.meta && d.meta.Recorded? && k <= |Ensuring(size)|
    ensures
      var q := RunPhases(r, Ensuring(size)[k..], rid, fates).place;
      q.Some? && q.value.meta == d.meta
    decreases |Ensuring(size)| - k
  {
    if k < |Ensuring(size)| && r.ok {
      MetadataEffects(d, r, PhasePlan(r.place, Ensuring(size)[k], rid).effects, fates);
      assert Ensuring(size)[k..][1..] == Ensuring(size)[k + 1..];
      MetadataRest(d, RunPhase(r, Ensuring(size)[k], rid, fates), rid, size, k + 1, fates);
    }
  }

  lemma {:induction false} StepKeeps(store: Store, e: Event)
    requires AllInv(store)
    ensures AllInv(Step(store, e))
  {
    if e.EnsureCall? {
      EnsureKeeps(At(store, e.rid), e.rid, e.size, e.fates);
    } else if e.RemoveCall? {
      RemoveSound(At(store, e.rid), e.rid, e.fates, 0);
    } else if e.Boot? {
      BootKeepsImages(store, e.names, e.fates, 0);
    } else if e.rid in store {
      MeddleKeeps(store[e.rid], e.what, e.rid);
    }
  }

  lemma {:induction false} RunKeeps(store: Store, events: seq<Event>)
    requires AllInv(store)
    ensures AllInv(Exec(store, events))
    decreases |events|
  {
    if events == [] {
    } else {
      StepKeeps(store, events[0]);
      RunKeeps(Step(store, events[0]), events[1..]);
    }
  }

  // ---- the main results ------------------------------------------------------------------------------

  /** From an empty root, after any events and stops: an image never exists without its
      whole metadata, naming its runner and its size, and anything mounted is a whole
      image of that runner. */
  lemma {:induction false} ImagesAreDescribed(events: seq<Event>, rid: string)
    requires rid in Exec(map[], events)
    ensures
      var d := Exec(map[], events)[rid];
      && (d.image.Some? ==> d.meta.Recorded? && d.meta.owner == rid && SizeOk(d.meta.bytes))
      && (Mounted(d) ==> Whole(d, rid))
  {
    RunKeeps(map[], events);
  }

  predicate Removes(e: Event, rid: string) {
    e.RemoveCall? && e.rid == rid
  }

  lemma {:induction false} StepPreserves(store: Store, e: Event, rid: string)
    requires AllInv(store) && rid in store && store[rid].meta.Recorded? && !Removes(e, rid)
    ensures Preserved(At(store, rid), At(Step(store, e), rid))
  {
    if e.EnsureCall? {
      EnsureKeeps(At(store, e.rid), e.rid, e.size, e.fates);
    } else if e.Boot? {
      BootKeepsImages(store, e.names, e.fates, 0);
    } else if e.Meddling? && e.rid in store {
      MeddleKeeps(store[e.rid], e.what, e.rid);
    }
  }

  /** The recorded size and owner, and an image's size and filesystem, stay as they
      are through everything but the runner's removal. */
  lemma {:induction false} FixedUntilRemoval(store: Store, events: seq<Event>, rid: string)
    requires AllInv(store) && rid in store && store[rid].meta.Recorded?
    requires forall k | 0 <= k < |events| :: !Removes(events[k], rid)
    ensures Preserved(At(store, rid), At(Exec(store, events), rid))
    decreases |events|
  {
    if events == [] {
    } else {
      StepKeeps(store, events[0]);
      StepPreserves(store, events[0], rid);
      FixedUntilRemoval(Step(store, events[0]), events[1..], rid);
    }
  }

  lemma {:induction false} BootLeavesStuck(store: Store, names: seq<string>, fates: Fates, n: nat, rid: string)
    requires rid in store && Stuck(Some(store[rid]), rid)
    ensures At(MountAll(store, names, fates, n).store, rid) == At(store, rid)
    decreases |names|
  {
    if names != [] && names[0] == ".lock" {
      BootLeavesStuck(store, names[1..], fates, n, rid);
    } else if names != [] && Checked(names[0]).Some? {
      var other := Checked(names[0]).value;
      var r := Resume(At(store, other), other, fates, n);
      if other == rid {
        StuckIsRefused(At(store, rid), rid, 0, fates, n);
      } else if r.ok {
        BootLeavesStuck(Put(store, other, r.place), names[1..], fates, r.n, rid);
      }
    }
  }

  /** A directory whose metadata write or format was interrupted stays so for ever,
      whatever is called and however often the worker boots: only someone working on
      the files by hand gets it out. */
  lemma {:induction false} StuckForEver(store: Store, events: seq<Event>, rid: string)
    requires rid in store && AllInv(store) && Stuck(Some(store[rid]), rid)
    ensures rid in Exec(store, events) && Stuck(Some(Exec(store, events)[rid]), rid)
    ensures Exec(store, events)[rid].meta == store[rid].meta
    decreases |events|
  {
    if events == [] {
    } else {
      var e := events[0];
      StepKeeps(store, e);
      if e.EnsureCall? && e.rid == rid { StuckIsRefused(At(store, rid), rid, e.size, e.fates, 0); }
      else if e.RemoveCall? && e.rid == rid { StuckIsRefused(At(store, rid), rid, 0, e.fates, 0); }
      else if e.Boot? { BootLeavesStuck(store, e.names, e.fates, 0, rid); }
      else if e.Meddling? && e.rid == rid { MeddleKeeps(store[rid], e.what, rid); }
      StuckForEver(Step(store, e), events[1..], rid);
    }
  }

  // ---- boots ---------------------------------------------------------------------------------------

  /** An entry a boot can pass: the lock, or a directory with a whole image that
      `ensure` would take at its recorded size. */
  predicate Bootable(store: Store, name: string) {
    name == ".lock"
    || (Checked(name).Some? &&
        var rid := Checked(name).value;
        rid in store && Identified(store[rid], rid) && Whole(store[rid], rid)
        && CanEnsure(Some(store[rid]), rid, store[rid].meta.bytes))
  }

  predicate ReadyAt(store: Store, name: string) {
    name == ".lock"
    || (Checked(name).Some? &&
        var rid := Checked(name).value;
        rid in store && store[rid].meta.Recorded? && SizeOk(store[rid].meta.bytes)
            && Ready(Some(store[rid]), rid, store[rid].meta.bytes))
  }

  lemma {:induction false} ResumeSucceedsExactly(store: Store, name: string, fates: Fates, n: nat)
    requires AllInv(store) && Calm(fates) && name != ".lock" && Checked(name).Some?
    ensures
      var rid := Checked(name).value;
      var r := Resume(At(store, rid), rid, fates, n);
      (r.ok <==> Bootable(store, name)) && (r.ok ==> ReadyAt(Put(store, rid, r.place), name))
  {
    var rid := Checked(name).value;
    if rid in store && Identified(store[rid], rid) && Whole(store[rid], rid) {
      EnsureSucceedsExactly(At(store, rid), rid, store[rid].meta.bytes, fates, n);
    }
  }

  lemma {:induction false} ReadyIsBootable(store: Store, name: string)
    requires ReadyAt(store, name)
    ensures Bootable(store, name)
  {
    if name != ".lock" {
      var rid := Checked(name).value;
      EnsuredCanBe(At(store, rid), rid, store[rid].meta.bytes);
    }
  }

  /** Mounting one entry changes nothing for the others. */
  lemma {:induction false} BootableElsewhere(store: Store, name: string, p: Place, other: string)
    requires name != ".lock" && Checked(name).Some? && p.Some? && Bootable(store, name)
    requires ReadyAt(Put(store, Checked(name).value, p), name)
    ensures Bootable(Put(store, Checked(name).value, p), other) <==> Bootable(store, other)
  {
    ReadyIsBootable(Put(store, Checked(name).value, p), name);
  }

  /** A ready directory stays ready through a boot, wherever the boot stops. */
  lemma {:induction false} ReadyStays(store: Store, names: seq<string>, fates: Fates, n: nat, name: string)
    requires ReadyAt(store, name)
    ensures ReadyAt(MountAll(store, names, fates, n).store, name)
    decreases |names|
  {
    if names != [] && names[0] == ".lock" {
      ReadyStays(store, names[1..], fates, n, name);
    } else if names != [] && Checked(names[0]).Some? {
      var rid := Checked(names[0]).value;
      var r := Resume(At(store, rid), rid, fates, n);
      if name != ".lock" && Checked(name).value == rid {
        EnsureAgainDoesNothing(At(store, rid), rid, store[rid].meta.bytes, fates, n);
        ReadyIsBootable(store, name);
      }
      assert ReadyAt(Put(store, rid, r.place), name);
      if r.ok { ReadyStays(Put(store, rid, r.place), names[1..], fates, r.n, name); }
    }
  }

  predicate NoneOf(names: seq<string>, m: nat, rid: string) {
    forall k | 0 <= k < m && k < |names| :: Checked(names[k]) != Some(rid)
  }

  /** Undisturbed, a boot mounts the entries before the first it cannot pass, and
      does nothing to those after: one directory left half removed or half formatted
      keeps every runner sorted after it unmounted. */
  lemma {:induction false} BootStopsAtFirst(store: Store, names: seq<string>, fates: Fates, n: nat, upto: nat)
    requires AllInv(store) && Calm(fates) && upto <= |names|
    requires forall k | 0 <= k < upto :: Bootable(store, names[k])
    requires upto < |names| ==> !Bootable(store, names[upto])
    ensures
      var b := MountAll(store, names, fates, n);
      && (b.ok <==> upto == |names|)
      && (forall k | 0 <= k < upto :: ReadyAt(b.store, names[k]))
      && (forall rid | rid in store && NoneOf(names, upto + 1, rid) :: At(b.store, rid) == At(store, rid))
    decreases |names|
  {
    if names != [] && names[0] == ".lock" {
      BootStopsAtFirst(store, names[1..], fates, n, upto - 1);
      NoneOfRest(names, upto);
    } else if names != [] && Checked(names[0]).Some? {
      var rid := Checked(names[0]).value;
      ResumeSucceedsExactly(store, names[0], fates, n);
      ResumeKeeps(At(store, rid), rid, fates, n);
      var r := Resume(At(store, rid), rid, fates, n);
      if r.ok {
        var next := Put(store, rid, r.place);
        forall other ensures Bootable(next, other) <==> Bootable(store, other) {
          BootableElsewhere(store, names[0], r.place, other);
        }
        BootStopsAtFirst(next, names[1..], fates, r.n, upto - 1);
        ReadyStays(next, names[1..], fates, r.n, names[0]);
        NoneOfRest(names, upto);
      }
    }
  }

  lemma {:induction false} NoneOfRest(names: seq<string>, upto: nat)
    requires names != [] && upto > 0
    ensures forall rid | NoneOf(names, upto + 1, rid) :: Checked(names[0]) != Some(rid) && NoneOf(names[1..], upto, rid)
  {
  }
}
