/** What one alarm key does over time (dashboard/alarms.py `_watch`, `_resolve`,
    `_turn`, and what each observation means for one key). The book treats every
    key on its own, so this is the whole behaviour; AlarmBook proves that its
    loops over tables and runner lists do exactly this for every key at once.

    `now` is a real number of seconds; a stored time is the whole second `iso`
    prints, and `epoch` reads that back. */
module Alarms {
  import opened Basics

  datatype Kind = RunnerOffline | RunnerPlanned | JobQueued | MonitorBlind

  datatype Key =
    | RunnerKey(forge: string, name: string)
    | MonitorKey(forge: string, queue: bool)
    | QueueKey(forge: string, job: string)

  datatype Detail = Detail(labels: seq<string>, repo: string, why: string)

  datatype Row = Row(kind: Kind, since: int, raised: Option<int>, acked: Option<string>, detail: Detail)

  datatype Event =
    | Raised(kind: Kind, since: int, at: int)
    | Resolved(kind: Kind, since: int, raisedAt: int, at: int)
    | Acknowledged(kind: Kind, since: int, actor: string)

  /** A key's row, and what has been recorded about it. */
  datatype Outcome = Outcome(row: Option<Row>, events: seq<Event>)

  function Stamp(now: real): int {
    now.Floor
  }

  /** `_watch`: the condition is observed. */
  function Watch(row: Option<Row>, kind: Kind, detail: Detail, since: int, threshold: nat, now: real): Outcome {
    var watched := if row.Some? then row.value.(detail := detail) else Row(kind, since, None, None, detail);
    if watched.raised.None? && now - watched.since as real >= threshold as real
    then Outcome(Some(watched.(raised := Some(Stamp(now)))), [Raised(kind, watched.since, Stamp(now))])
    else Outcome(Some(watched), [])
  }

  /** `_resolve`: the condition is over. */
  function Resolve(row: Option<Row>, now: real): Outcome {
    if row.Some? && row.value.raised.Some?
    then Outcome(None, [Resolved(row.value.kind, row.value.since, row.value.raised.value, Stamp(now))])
    else Outcome(None, [])
  }

  /** `_turn`: what an offline runner's watch is called changes. */
  function Turn(row: Option<Row>, kind: Kind, now: real): Option<Row> {
    if row.None? || row.value.kind == kind then row
    else if row.value.raised.None? then Some(row.value.(kind := kind))
    else if kind == RunnerOffline
    then Some(row.value.(kind := kind, since := Stamp(now), raised := None, acked := None))
    else row
  }

  // ---- one reading of a forge's runners ---------------------------------------

  datatype Runner = Runner(id: string, name: string, online: bool, labels: seq<string>)

  /** Everything a reading says about one runner name. */
  datatype Sight = Sight(online: bool, labels: seq<string>, ids: seq<string>, quiet: bool)

  /** What the caller knows: why names and registrations are offline on purpose,
      which names ought to be listed, and the older list of quiet registrations. */
  datatype Plan = Plan(byName: map<string, string>, byId: map<string, string>, expected: seq<string>,
      quiet: set<string>)

  function NameOf(runner: Runner): string {
    if runner.name != "" then runner.name else runner.id
  }

  function NewLabels(labels: seq<string>, more: seq<string>): seq<string> {
    if more == [] then []
    else (if more[0] in labels then [] else [more[0]]) + NewLabels(labels, more[1..])
  }

  function AddSight(byName: map<string, Sight>, runner: Runner, quiet: set<string>): map<string, Sight> {
    var name := NameOf(runner);
    var one := if name in byName then byName[name] else Sight(false, [], [], false);
    byName[name := Sight(one.online || runner.online, one.labels + NewLabels(one.labels, runner.labels),
                         one.ids + [runner.id], one.quiet || runner.id in quiet)]
  }

  function Listed(runners: seq<Runner>, quiet: set<string>): map<string, Sight> {
    if runners == [] then map[]
    else AddSight(Listed(runners[..|runners| - 1], quiet), runners[|runners| - 1], quiet)
  }

  /** Names the platform expects and the forge does not list are offline. */
  function Expect(byName: map<string, Sight>, names: seq<string>): map<string, Sight> {
    if names == [] then byName
    else
      var sofar := Expect(byName, names[..|names| - 1]);
      var name := names[|names| - 1];
      if name == "" || name in sofar then sofar else sofar[name := Sight(false, [], [], false)]
  }

  function Sights(runners: seq<Runner>, plan: Plan): map<string, Sight> {
    Expect(Listed(runners, plan.quiet), plan.expected)
  }

  function PlannedById(byId: map<string, string>, ids: seq<string>): string {
    if ids == [] then "" else if ids[0] in byId then byId[ids[0]] else PlannedById(byId, ids[1..])
  }

  /** Why the platform has this runner offline on purpose; "" when it has not. */
  function Reason(plan: Plan, name: string, one: Sight): string {
    if name in plan.byName && plan.byName[name] != "" then plan.byName[name]
    else if PlannedById(plan.byId, one.ids) != "" then PlannedById(plan.byId, one.ids)
    else if one.quiet then "stopped on purpose on the platform" else ""
  }

  function OfflineKind(reason: string): Kind {
    if reason != "" then RunnerPlanned else RunnerOffline
  }

  function SeenOffline(row: Option<Row>, name: string, one: Sight, plan: Plan, threshold: nat, now: real): Outcome {
    var reason := Reason(plan, name, one);
    Watch(Turn(row, OfflineKind(reason), now), OfflineKind(reason), Detail(one.labels, "", reason),
          Stamp(now), threshold, now)
  }

  predicate IsRunnerKind(kind: Kind) {
    kind == RunnerOffline || kind == RunnerPlanned
  }

  // ---- queued jobs ---------------------------------------------------------------

  datatype Job = Job(id: string, repo: string, labels: seq<string>, since: Option<int>)

  function Trim(s: string): string
    decreases |s|
  {
    if s == "" then ""
    else if s[0] == ' ' then Trim(s[1..])
    else if s[|s| - 1] == ' ' then Trim(s[..|s| - 1])
    else s
  }

  function LowerChar(c: char): char {
    if 'A' <= c <= 'Z' then (c as int - 'A' as int + 'a' as int) as char else c
  }

  function Lower(s: string): string {
    seq(|s|, i requires 0 <= i < |s| => LowerChar(s[i]))
  }

  /** `_lower` */
  function Normal(labels: seq<string>): set<string> {
    set l | l in labels && Trim(l) != "" :: Lower(Trim(l))
  }

  /** `can_run` */
  predicate CanRun(labels: seq<string>, online: seq<seq<string>>) {
    exists i | 0 <= i < |online| :: Normal(labels) <= Normal(online[i])
  }

  /** `hosted` */
  predicate Hosted(labels: seq<string>, known: set<string>) {
    var wanted := Normal(labels);
    wanted == {} || ("self-hosted" !in wanted && !(wanted <= set l | l in known && Trim(l) != "" :: Lower(Trim(l))))
  }

  datatype Sweep = Sweep(jobs: seq<Job>, swept: set<string>, online: seq<seq<string>>, known: set<string>,
                         listed: Option<set<string>>)

  /** What the jobs found say about one queue key: nothing, that a runner could
      take it, or that it waits. The row is what watching has made of it. */
  datatype Finding = Finding(waiting: bool, taken: bool, outcome: Outcome)

  function Waits(job: Job, sweep: Sweep): bool {
    !Hosted(job.labels, sweep.known) && !CanRun(job.labels, sweep.online)
  }

  function Taken(job: Job, sweep: Sweep): bool {
    !Hosted(job.labels, sweep.known) && CanRun(job.labels, sweep.online)
  }

  function SinceOf(job: Job, now: real): int {
    if job.since.Some? && job.since.value != 0 then job.since.value else Stamp(now)
  }

  function Found(
    row: Option<Row>, key: Key, forge: string, jobs: seq<Job>, sweep: Sweep, threshold: nat, now: real): Finding
  {
    if jobs == [] then Finding(false, false, Outcome(row, []))
    else
      var before := Found(row, key, forge, jobs[..|jobs| - 1], sweep, threshold, now);
      var job := jobs[|jobs| - 1];
      if key != QueueKey(forge, job.id) then before
      else if Taken(job, sweep) then before.(taken := true)
      else if Waits(job, sweep) then
        var watched := Watch(before.outcome.row, JobQueued, Detail(job.labels, job.repo, ""), SinceOf(job, now),
            threshold, now);
        before.(waiting := true, outcome := Outcome(watched.row, before.outcome.events + watched.events))
      else before
  }

  function SweepRow(found: Finding, forge: string, key: Key, sweep: Sweep, now: real): Outcome {
    var row := found.outcome.row;
    if row.None? || row.value.kind != JobQueued || key.forge != forge || found.waiting then found.outcome
    else if found.taken || row.value.detail.repo in sweep.swept
            || (sweep.listed.Some? && row.value.detail.repo !in sweep.listed.value)
    then Outcome(None, found.outcome.events + Resolve(row, now).events)
    else found.outcome
  }

  // ---- one input, for one key --------------------------------------------------------

  datatype Input =
    | RunnersRead(forge: string, runners: Option<seq<Runner>>, plan: Plan, threshold: nat, now: real)
    | QueueRead(forge: string, readable: bool, threshold: nat, now: real)
    | QueueSwept(forge: string, sweep: Sweep, threshold: nat, now: real)
    | Recheck(forge: string, online: seq<seq<string>>, threshold: nat, now: real)
    | Acknowledge(key: Key, actor: string, now: real)

  const NOTHING := Detail([], "", "")

  function Monitor(row: Option<Row>, readable: bool, threshold: nat, now: real): Outcome {
    if readable then Resolve(row, now) else Watch(row, MonitorBlind, NOTHING, Stamp(now), threshold, now)
  }

  function OnRunnersRead(row: Option<Row>, key: Key, input: Input): Outcome
    requires input.RunnersRead?
  {
    if key.forge != input.forge then Outcome(row, [])
    else match key
      case MonitorKey(_, queue) =>
        if queue then Outcome(row, []) else Monitor(row, input.runners.Some?, input.threshold, input.now)
      case QueueKey(_, _) => Outcome(row, [])
      case RunnerKey(_, name) =>
        if input.runners.None? then Outcome(row, [])
        else
          var sights := Sights(input.runners.value, input.plan);
          if name in sights && !sights[name].online
          then SeenOffline(row, name, sights[name], input.plan, input.threshold, input.now)
          else if name in sights || (row.Some? && IsRunnerKind(row.value.kind)) then Resolve(row, input.now)
          else Outcome(row, [])
  }

  function OnRecheck(row: Option<Row>, key: Key, input: Input): Outcome
    requires input.Recheck?
  {
    if row.None? || row.value.kind != JobQueued || key.forge != input.forge then Outcome(row, [])
    else if CanRun(row.value.detail.labels, input.online) then Resolve(row, input.now)
    else Watch(row, JobQueued, row.value.detail, row.value.since, input.threshold, input.now)
  }

  function Step(row: Option<Row>, key: Key, input: Input): Outcome {
    match input
    case RunnersRead(_, _, _, _, _) => OnRunnersRead(row, key, input)
    case QueueRead(forge, readable, threshold, now) =>
      if key == MonitorKey(forge, true) then Monitor(row, readable, threshold, now) else Outcome(row, [])
    case QueueSwept(forge, sweep, threshold, now) =>
      SweepRow(Found(row, key, forge, sweep.jobs, sweep, threshold, now), forge, key, sweep, now)
    case Recheck(_, _, _, _) => OnRecheck(row, key, input)
    case Acknowledge(acked, actor, now) =>
      if key != acked || row.None? then Outcome(row, [])
      else Outcome(Some(row.value.(acked := Some(actor))), [Acknowledged(row.value.kind, row.value.since, actor)])
  }

  /** A key's row and its whole record after a sequence of inputs. */
  function Run(key: Key, inputs: seq<Input>): Outcome {
    if inputs == [] then Outcome(None, [])
    else
      var before := Run(key, inputs[..|inputs| - 1]);
      var after := Step(before.row, key, inputs[|inputs| - 1]);
      Outcome(after.row, before.events + after.events)
  }

  /** Each key's row is of the kind its key is for. */
  ghost predicate KindFits(key: Key, row: Option<Row>) {
    row.Some? ==> match key
                  case RunnerKey(_, _) => IsRunnerKind(row.value.kind)
                  case MonitorKey(_, _) => row.value.kind == MonitorBlind
                  case QueueKey(_, _) => row.value.kind == JobQueued
  }

  lemma {:induction false} FoundFits(
    row: Option<Row>, key: Key, forge: string, jobs: seq<Job>, sweep: Sweep, threshold: nat, now: real)
    requires KindFits(key, row)
    ensures KindFits(key, Found(row, key, forge, jobs, sweep, threshold, now).outcome.row)
    decreases |jobs|
  {
    if jobs == [] {
    } else {
      FoundFits(row, key, forge, jobs[..|jobs| - 1], sweep, threshold, now);
    }
  }

  lemma {:induction false} StepFits(row: Option<Row>, key: Key, input: Input)
    requires KindFits(key, row)
    ensures KindFits(key, Step(row, key, input).row)
  {
    if input.QueueSwept? {
      FoundFits(row, key, input.forge, input.sweep.jobs, input.sweep, input.threshold, input.now);
    }
  }
}
