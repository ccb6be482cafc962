/** One runner's own filesystem on a Linux worker (agent/runtimes/linux_storage.py):
    its directory, metadata file, sparse image and mount. An operation is a list of
    phases; a phase looks at the disk, performs some effects one by one, and may
    then refuse. The process may die, or a command fail, at any effect: nothing is
    undone then, so both read as the operation stopping there. */
module DiskPlan {
  import opened Basics

  const MIN_BYTES := 64 * 1024 * 1024
  const MAX_BYTES := 0x7fff_ffff_ffff_ffff
  const AREAS: seq<string> := ["work", "dind", "cache", "reg", "logs"]

  datatype Metadata = Absent | Unreadable | Recorded(bytes: int, owner: string)

  /** What `blkid` reads in an image: nothing, remains of a format, or a filesystem. */
  datatype Format = Blank | Torn | Ext4(uuid: string)

  datatype Image = Image(size: int, format: Format, areas: set<string>)

  datatype Loop = Loop(direct: bool)

  /** The `mnt` directory: files in it that a mount would hide, the image's mount,
      and mounts made inside that. */
  datatype Target = Target(hidden: bool, mounted: Option<Loop>, over: set<string>)

  /** An existing runner directory. `loops` are devices on the image besides the mount's. */
  datatype Disk = Disk(meta: Metadata, image: Option<Image>, target: Option<Target>, stray: bool, loops: nat)

  type Place = Option<Disk>

  // ---- effects --------------------------------------------------------------------

  datatype Effect =
    | MakeDirectory | BeginMetadata | WriteMetadata(bytes: int, owner: string)
    | CreateImage | SetSize(size: int) | Mkfs(left: Format)
    | MakeTarget | Mount | SwitchDirect | MakeArea(area: string)
    | Unmount | DropTarget | UnlinkImage | UnlinkMetadata | DropDirectory

  function OnImage(d: Disk, f: Image -> Image): Disk {
    if d.image.Some? then d.(image := Some(f(d.image.value))) else d
  }

  function OnTarget(d: Disk, f: Target -> Target): Disk {
    if d.target.Some? then d.(target := Some(f(d.target.value))) else d
  }

  function Change(d: Disk, e: Effect): Disk {
    match e
    case MakeDirectory => d
    case BeginMetadata => d.(meta := Unreadable)
    case WriteMetadata(bytes, owner) => d.(meta := Recorded(bytes, owner))
    case CreateImage => d.(image := Some(Image(0, Blank, {})))
    case SetSize(size) => OnImage(d, (i: Image) => i.(size := size))
    case Mkfs(left) => OnImage(d, (i: Image) => i.(format := left))
    case MakeTarget => d.(target := Some(Target(false, None, {})))
    case Mount => OnTarget(d, (t: Target) => t.(mounted := Some(Loop(false))))
    case SwitchDirect => OnTarget(d, (t: Target) => t.(mounted := Some(Loop(true))))
    case MakeArea(area) => OnImage(d, (i: Image) => i.(areas := i.areas + {area}))
    case Unmount => OnTarget(d, (t: Target) => t.(mounted := None))
    case DropTarget => d.(target := None)
    case UnlinkImage => d.(image := None)
    case UnlinkMetadata => d.(meta := Absent)
    case DropDirectory => d
  }

  function Perform(p: Place, e: Effect): Place {
    if e.MakeDirectory? then Some(Disk(Absent, None, None, false, 0))
    else if e.DropDirectory? || p.None? then None
    else Some(Change(p.value, e))
  }

  // ---- what an operation looks at ------------------------------------------------------

  predicate SizeOk(bytes: int) {
    MIN_BYTES <= bytes <= MAX_BYTES
  }

  /** A size is at least 64 MiB and fits a signed 64-bit number. */
  lemma {:induction false} SizesExactly(bytes: int)
    ensures SizeOk(bytes) <==> 67_108_864 <= bytes && bytes < 0x8000_0000_0000_0000
  {
  }

  /** `_metadata` accepts the directory. */
  predicate Identified(d: Disk, rid: string) {
    d.meta.Recorded? && d.meta.owner == rid && SizeOk(d.meta.bytes) && !d.stray
  }

  /** `_filesystem` accepts the image. */
  predicate Whole(d: Disk, rid: string) {
    d.meta.Recorded? && d.image.Some? && d.image.value.size == d.meta.bytes && d.image.value.format == Ext4(rid)
  }

  predicate Mounted(d: Disk) {
    d.target.Some? && d.target.value.mounted.Some?
  }

  predicate EmptyDirectory(d: Disk) {
    d.meta.Absent? && d.image.None? && d.target.None? && !d.stray
  }

  // ---- phases ----------------------------------------------------------------------------

  datatype Phase =
    | Directory | Describe(bytes: int) | Identify | Match(size: int) | Allocate | Inspect
    | Aim | Attach | Direct | Provide(area: string)
    | InspectAny | Detach | Unaim | Unused | Discard

  /** The effects a phase performs, and whether it then refuses. */
  datatype Plan = Plan(effects: seq<Effect>, refuses: bool)

  function PhasePlan(p: Place, phase: Phase, rid: string): Plan {
    if p.None? then if phase.Directory? then Plan([MakeDirectory], false) else Plan([], true)
    else
      var d := p.value;
      match phase
      case Directory => Plan([], false)
      case Describe(bytes) =>
        if !d.meta.Absent? then Plan([], false)
        else if EmptyDirectory(d) then Plan([BeginMetadata, WriteMetadata(bytes, rid)], false)
        else Plan([], true)
      case Identify => Plan([], !Identified(d, rid))
      case Match(size) => Plan([], !(d.meta.Recorded? && d.meta.bytes == size))
      case Allocate =>
        if d.image.None? && d.meta.Recorded? then Plan([CreateImage, SetSize(d.meta.bytes), Mkfs(Ext4(rid))], false)
        else Plan([], d.image.None?)
      case Inspect => Plan([], !Whole(d, rid))
      case Aim => if d.target.None? then Plan([MakeTarget], false) else Plan([], false)
      case Attach =>
        if Mounted(d) then Plan([], false)
        else if d.target.None? || d.target.value.hidden then Plan([], true)
        else Plan([Mount], false)
      case Direct =>
        if Mounted(d) && !d.target.value.mounted.value.direct then Plan([SwitchDirect], false)
        else Plan([], !Mounted(d))
      case Provide(area) =>
        if d.image.None? || d.target.None? then Plan([], true)
        else Plan(if area in d.image.value.areas then [] else [MakeArea(area)], area in d.target.value.over)
      case InspectAny => Plan([], d.image.Some? && !Whole(d, rid))
      case Detach =>
        if !Mounted(d) then Plan([], false)
        else if d.target.value.over != {} then Plan([], true)
        else Plan([Unmount], false)
      case Unaim =>
        if d.target.None? then Plan([], false)
        else if d.target.value.hidden then Plan([], true)
        else Plan([DropTarget], false)
      case Unused => Plan([], d.image.Some? && d.loops > 0)
      case Discard => Plan((if d.image.Some? then [UnlinkImage] else []) + [UnlinkMetadata, DropDirectory], false)
  }

  function Ensuring(size: int): seq<Phase> {
    [Directory, Describe(size), Identify, Match(size), Allocate, Inspect, Aim, Attach, Direct,
     Provide("work"), Provide("dind"), Provide("cache"), Provide("reg"), Provide("logs")]
  }

  const REMOVING: seq<Phase> := [Identify, InspectAny, Detach, Unaim, Unused, Discard]

  // ---- running them ------------------------------------------------------------------------

  /** Whether effect number n of the worker's life happens. An interrupted format
      leaves something; any other effect that stops leaves nothing. */
  datatype Fate = Happens | Stops | Leaves(left: Format)

  type Fates = nat -> Fate

  datatype Act = Act(effect: Effect, before: Place)

  /** Where an operation got to, what it did, and whether it ended well. */
  datatype Ran = Ran(place: Place, acts: seq<Act>, n: nat, ok: bool)

  function Do(r: Ran, e: Effect, fates: Fates): Ran {
    var fate := fates(r.n);
    if fate.Happens? then Ran(Perform(r.place, e), r.acts + [Act(e, r.place)], r.n + 1, true)
    else if fate.Leaves? && e.Mkfs? then
      Ran(Perform(r.place, Mkfs(fate.left)), r.acts + [Act(Mkfs(fate.left), r.place)], r.n + 1, false)
    else Ran(r.place, r.acts, r.n + 1, false)
  }

  function DoAll(r: Ran, effects: seq<Effect>, fates: Fates): Ran
    decreases |effects|
  {
    if effects == [] || !r.ok then r else DoAll(Do(r, effects[0], fates), effects[1..], fates)
  }

  function RunPhase(r: Ran, phase: Phase, rid: string, fates: Fates): Ran {
    if !r.ok then r
    else
      var plan := PhasePlan(r.place, phase, rid);
      var done := DoAll(r, plan.effects, fates);
      done.(ok := done.ok && !plan.refuses)
  }

  function RunPhases(r: Ran, phases: seq<Phase>, rid: string, fates: Fates): Ran
    decreases |phases|
  {
    if phases == [] || !r.ok then r else RunPhases(RunPhase(r, phases[0], rid, fates), phases[1..], rid, fates)
  }

  /** `ensure`, from effect number n on */
  function Ensure(p: Place, rid: string, size: int, fates: Fates, n: nat): Ran {
    if !SizeOk(size) then Ran(p, [], n, false) else RunPhases(Ran(p, [], n, true), Ensuring(size), rid, fates)
  }

  /** `remove` */
  function Remove(p: Place, rid: string, fates: Fates, n: nat): Ran {
    if p.None? then Ran(p, [], n, true) else RunPhases(Ran(p, [], n, true), REMOVING, rid, fates)
  }

  /** One turn of `mount_all`: an image that exists and is whole, mounted again. */
  function Resume(p: Place, rid: string, fates: Fates, n: nat): Ran {
    if p.None? || !Identified(p.value, rid) || !Whole(p.value, rid) then Ran(p, [], n, false)
    else Ensure(p, rid, p.value.meta.bytes, fates, n)
  }
}
