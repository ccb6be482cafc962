/** Projection of the durable job ledger into run history
    (dashboard/native_history.py; eligibility from dashboard/control/job_events.py).
    Instants are microseconds of UTC: the ledger stores every timestamp in one
    fixed-width form, so comparing its text is comparing instants. A run's id is
    its position in `runs`; rows of `runs` are never deleted. */
module Projection {
  import opened Basics

  datatype JobState = Started | Finished

  datatype Source = Worker | Forge

  datatype Event = Event(
    sequence: nat, runner: string, provider: string,
    runId: Option<string>, attempt: Option<string>, job: Option<string>, jobId: Option<string>,
    state: JobState, at: int, source: Source, result: Option<string>, receivedAt: int)

  datatype Base = Base(runner: string, provider: string, run: string, attempt: string)

  datatype Run = Run(
    runner: string, job: string, started: int,
    ended: Option<int>, duration: Option<nat>, result: Option<string>, conclusion: Option<string>)

  /** A row of native_job_runs. */
  datatype Native = Native(base: Base, job: string, history: nat, source: Source, at: int)

  datatype Db = Db(runs: seq<Run>, native: seq<Native>, names: set<(nat, string)>, ids: set<(nat, string)>)

  const SECOND := 1_000_000
  const WINDOW := 30 * SECOND

  function OrElse(o: Option<string>, default: string): string {
    if Present(o) then o.value else default
  }

  function BaseOf(e: Event): Base {
    Base(e.runner, e.provider, OrElse(e.runId, ""), OrElse(e.attempt, "1"))
  }

  function JobOf(e: Event): string {
    OrElse(e.job, "job")
  }

  /** The event's execution identity, "" when it has none. */
  function IdOf(e: Event): string {
    OrElse(e.jobId, "")
  }

  predicate IsHook(id: string) {
    |id| >= 5 && id[..5] == "hook:"
  }

  predicate SameKind(a: string, b: string) {
    IsHook(a) == IsHook(b)
  }

  /** `_has_job_context` and `_within_worker_clock`; a signed event needs neither. */
  predicate Projects(e: Event) {
    e.source == Forge || (Present(e.runId) && Present(e.job) && e.at <= e.receivedAt + WINDOW)
  }

  function ResultOf(result: Option<string>): Option<string> {
    if result.None? then None
    else match result.value
      case "success" => Some("Succeeded")
      case "failure" => Some("Failed")
      case "cancelled" => Some("Canceled")
      case "timed_out" => Some("TimedOut")
      case "skipped" => Some("Skipped")
      case "neutral" => Some("Neutral")
      case "action_required" => Some("ActionRequired")
      case "stale" => Some("Stale")
      case _ => None
  }

  // ---- finding the run an event belongs to ------------------------------------

  /** Insert into rows ordered by history id, greatest first; equals keep their order. */
  function Place(row: Native, sorted: seq<Native>): seq<Native> {
    if sorted == [] || row.history >= sorted[0].history then [row] + sorted
    else [sorted[0]] + Place(row, sorted[1..])
  }

  /** ORDER BY history_id DESC */
  function Newest(rows: seq<Native>): seq<Native> {
    if rows == [] then [] else Place(rows[0], Newest(rows[1..]))
  }

  function WithBase(native: seq<Native>, base: Base): seq<Native> {
    if native == [] then []
    else (if native[0].base == base then [native[0]] else []) + WithBase(native[1..], base)
  }

  function FirstWithId(rows: seq<Native>, ids: set<(nat, string)>, id: string): Option<Native> {
    if rows == [] then None
    else if (rows[0].history, id) in ids then Some(rows[0])
    else FirstWithId(rows[1..], ids, id)
  }

  function Candidates(db: Db, base: Base): seq<Native> {
    var rows := Newest(WithBase(db.native, base));
    if |rows| <= 20 then rows else rows[..20]
  }

  /** Another identity of the same kind is already known for this run. */
  predicate HasOther(ids: set<(nat, string)>, history: nat, id: string) {
    exists pair | pair in ids :: pair.0 == history && SameKind(pair.1, id) && pair.1 != id
  }

  predicate HasAlias(ids: set<(nat, string)>, history: nat) {
    exists pair | pair in ids :: pair.0 == history
  }

  function EndOf(db: Db, history: nat): Option<int> {
    if history < |db.runs| then db.runs[history].ended else None
  }

  /** Whether an event may belong to this candidate at all. */
  predicate Eligible(db: Db, row: Native, e: Event) {
    var id := IdOf(e);
    var ended := EndOf(db, row.history);
    && row.history < |db.runs|
    && !(id != "" && HasOther(db.ids, row.history, id) && (row.history, id) !in db.ids)
    && !(e.state == Started && ended.Some? && e.at > row.at)
    && ((row.history, JobOf(e)) in db.names
        || (BaseOf(e).run != ""
            && (ended.None? || (id != "" && HasAlias(db.ids, row.history))
                || e.source == Forge || e.state == Finished)))
  }

  /** How well the event's instant fits the candidate's interval: 0 at the
      matching end of it, 1 inside, 2 at most thirty seconds outside the
      matching end, 3 not at all. */
  function Fit(db: Db, row: Native, e: Event): nat {
    if row.history >= |db.runs| then 3 else
    var run := db.runs[row.history];
    var started, ended := run.started, run.ended;
    if (if e.state == Started then Some(started) else ended) == Some(e.at) then 0
    else if started <= e.at && (ended.None? || e.at <= ended.value) then 1
    else if e.state == Started && 0 <= started - e.at <= WINDOW then 2
    else if e.state == Finished && ended.Some? && 0 <= e.at - ended.value <= WINDOW then 2
    else 3
  }

  function Group(db: Db, rows: seq<Native>, e: Event, fit: nat): seq<Native> {
    if rows == [] then []
    else (if Eligible(db, rows[0], e) && Fit(db, rows[0], e) == fit then [rows[0]] else [])
         + Group(db, rows[1..], e, fit)
  }

  function Only(rows: seq<Native>): Option<Native> {
    if |rows| == 1 then Some(rows[0]) else None
  }

  /** Strong identity: the newest run of this execution base that carries it. */
  function FindExact(db: Db, e: Event): Option<Native> {
    if IdOf(e) == "" then None
    else FirstWithId(Newest(WithBase(db.native, BaseOf(e))), db.ids, IdOf(e))
  }

  /** Otherwise the one candidate that fits best; several are never guessed between. */
  function FindByFit(db: Db, e: Event): Option<Native> {
    var rows := Candidates(db, BaseOf(e));
    var at, inside, near := Group(db, rows, e, 0), Group(db, rows, e, 1), Group(db, rows, e, 2);
    if at != [] then Only(at) else if inside != [] then Only(inside) else Only(near)
  }

  /** `_find_run` */
  function FindRun(db: Db, e: Event): Option<Native> {
    if FindExact(db, e).Some? then FindExact(db, e) else FindByFit(db, e)
  }

  // ---- the statements of `_project` --------------------------------------------

  /** The run already holding the UNIQUE key (runner, job_name, started_at). */
  function KeyHolder(runs: seq<Run>, runner: string, job: string, started: int): (h: Option<nat>)
    ensures h.Some? ==> h.value < |runs| && runs[h.value].runner == runner && runs[h.value].job == job
                        && runs[h.value].started == started
    ensures h.None? ==> forall i | 0 <= i < |runs| ::
                          !(runs[i].runner == runner && runs[i].job == job && runs[i].started == started)
  {
    if runs == [] then None
    else
      var last := runs[|runs| - 1];
      if last.runner == runner && last.job == job && last.started == started then Some(|runs| - 1)
      else KeyHolder(runs[..|runs| - 1], runner, job, started)
  }

  /** UPDATE runs SET job_name; None when the UNIQUE key refuses it. */
  function Rename(runs: seq<Run>, h: nat, job: string): Option<seq<Run>>
    requires h < |runs|
  {
    var holder := KeyHolder(runs, runs[h].runner, job, runs[h].started);
    if holder.Some? && runs[h].job != job then None else Some(runs[h := runs[h].(job := job)])
  }

  /** UPDATE native_job_runs ... WHERE history_id=? */
  function Retitle(native: seq<Native>, h: nat, job: string, source: Source, at: Option<int>): (r: seq<Native>)
    ensures |r| == |native|
  {
    seq(|native|, i requires 0 <= i < |native| =>
      if native[i].history != h then native[i]
      else native[i].(job := job, source := source, at := if at.Some? then at.value else native[i].at))
  }

  /** The closing UPDATE of a finished event. */
  function Close(runs: seq<Run>, h: nat, e: Event): (r: seq<Run>)
    requires h < |runs|
    ensures |r| == |runs|
  {
    runs[h := runs[h].(ended := Some(e.at), duration := Some(Max(0, (e.at - runs[h].started)) / SECOND),
                       result := ResultOf(e.result), conclusion := e.result)]
  }

  function WithAliases(db: Db, h: nat, e: Event): Db {
    db.(names := db.names + {(h, JobOf(e))},
        ids := if IdOf(e) == "" then db.ids else db.ids + {(h, IdOf(e))})
  }

  function Finish(db: Db, h: nat, e: Event): Db
    requires h < |db.runs|
  {
    if e.state == Finished then db.(runs := Close(db.runs, h, e)) else db
  }

  /** No known run fits: a new one, unless the UNIQUE key makes the insert
      ignored, and then the run that holds the key. */
  function ProjectNew(db: Db, e: Event): Db {
    var holder := KeyHolder(db.runs, e.runner, JobOf(e), e.at);
    var h := if holder.Some? then holder.value else |db.runs|;
    var runs := if holder.Some? then db.runs
                else db.runs + [Run(e.runner, JobOf(e), e.at, None, None, None, None)];
    var row := Native(BaseOf(e), JobOf(e), h, e.source, e.at);
    Finish(WithAliases(db.(runs := runs, native := db.native + [row]), h, e), h, e)
  }

  /** A known run: learn the event's aliases, then update it unless the event
      is stale, would overrule signed proof, or would reopen the run. */
  function ProjectKnown(db: Db, row: Native, e: Event): Option<Db>
    requires row.history < |db.runs|
  {
    var h := row.history;
    var known := WithAliases(db, h, e);
    var ended := db.runs[h].ended.Some?;
    if e.at < row.at && e.source != Forge then Some(known)
    else if row.source == Forge && e.source != Forge && ended then Some(known)
    else if e.state == Started && ended then
      if e.source != Forge then Some(known)
      else
        var renamed := Rename(db.runs, h, JobOf(e));
        if renamed.None? then None
        else Some(known.(native := Retitle(db.native, h, JobOf(e), Forge, None), runs := renamed.value))
    else
      var native := Retitle(db.native, h, if e.source == Forge then JobOf(e) else row.job, e.source, Some(e.at));
      if e.source != Forge then Some(Finish(known.(native := native), h, e))
      else
        var renamed := Rename(db.runs, h, JobOf(e));
        if renamed.None? then None
        else Some(Finish(known.(native := native, runs := renamed.value), h, e))
  }

  /** `_project`; None when a UNIQUE key refuses an update and the transaction
      is rolled back. */
  function Project(db: Db, e: Event): Option<Db> {
    var row := FindRun(db, e);
    if row.None? then Some(ProjectNew(db, e))
    else if row.value.history >= |db.runs| then None
    else ProjectKnown(db, row.value, e)
  }
}
