/** The agent's durable job-event outbox and its current-job cache
    (agent/job_events.py, `JobEventSender.record`, `_deliver`, `jobs`).

    The two SQLite tables are values: `events` is a sequence kept in rowid
    order, `current_jobs` a map. The functions below are the statements the
    sender issues; the class runs them in the sender's order, and the lemmas
    in OutboxRuns are about whole runs of them. */
module JobEvents {
  import opened Basics

  datatype JobState = Started | Finished

  /** A producer's timestamp: the text it wrote, and the instant that text
      denotes in microseconds of UTC. */
  datatype Stamp = Stamp(text: string, utc: int)

  /** One validated event. JSON with sorted keys is injective on these, so
      "same payload" is equality. */
  datatype Event = Event(
    id: string, runner: string, state: JobState, at: Stamp,
    job: Option<string>, repo: Option<string>, commit: Option<string>,
    runId: Option<string>, attempt: Option<string>, jobId: Option<string>,
    result: Option<string>)

  datatype Row = Row(rowid: nat, event: Event, delivered: bool)

  const CAPACITY := 10000
  const CLOCK_SKEW := 30_000_000

  // ---- the events table ---------------------------------------------------

  /** SELECT ... WHERE event_id=? */
  function FindEvent(rows: seq<Row>, id: string): (r: Option<Event>)
    ensures r.None? <==> forall i | 0 <= i < |rows| :: rows[i].event.id != id
    ensures r.Some? ==> r.value.id == id && exists i | 0 <= i < |rows| :: rows[i].event == r.value
  {
    if rows == [] then None
    else if rows[0].event.id == id then Some(rows[0].event)
    else
      var rest := FindEvent(rows[1..], id);
      assert rest.Some? ==> exists i | 0 <= i < |rows| :: rows[i].event == rest.value by {
        if rest.Some? {
          var i :| 0 <= i < |rows[1..]| && rows[1..][i].event == rest.value;
          assert rows[i + 1].event == rest.value;
        }
      }
      assert forall i | 1 <= i < |rows| :: rows[i] == rows[1..][i - 1];
      rest
  }

  /** SELECT COUNT(*) WHERE delivered=`flag` */
  function Count(rows: seq<Row>, flag: bool): nat {
    if rows == [] then 0
    else (if rows[0].delivered == flag then 1 else 0) + Count(rows[1..], flag)
  }

  /** SQLite's choice for a rowid table without AUTOINCREMENT: one past the
      greatest rowid still present. */
  function NextRowid(rows: seq<Row>): nat {
    MaxRowid(rows) + 1
  }

  function MaxRowid(rows: seq<Row>): nat {
    if rows == [] then 0
    else
      var rest := MaxRowid(rows[1..]);
      if rows[0].rowid > rest then rows[0].rowid else rest
  }

  function Insert(rows: seq<Row>, event: Event): seq<Row> {
    rows + [Row(NextRowid(rows), event, false)]
  }

  /** SELECT ... WHERE delivered=0 ORDER BY rowid LIMIT 1 */
  function FirstUndelivered(rows: seq<Row>): Option<Event> {
    if rows == [] then None
    else if !rows[0].delivered then Some(rows[0].event)
    else FirstUndelivered(rows[1..])
  }

  /** UPDATE events SET delivered=1 WHERE event_id=? */
  function MarkDelivered(rows: seq<Row>, id: string): (r: seq<Row>)
    ensures |r| == |rows|
    ensures forall i | 0 <= i < |rows| ::
              r[i] == if rows[i].event.id == id then rows[i].(delivered := true) else rows[i]
  {
    seq(|rows|, i requires 0 <= i < |rows| =>
      if rows[i].event.id == id then rows[i].(delivered := true) else rows[i])
  }

  /** DELETE the delivered rows that are not among the 10000 delivered rows of
      greatest rowid. */
  function Prune(rows: seq<Row>): seq<Row> {
    if rows == [] then []
    else if rows[0].delivered && Count(rows[1..], true) >= CAPACITY then Prune(rows[1..])
    else [rows[0]] + Prune(rows[1..])
  }

  // ---- what the end of a post leaves --------------------------------------

  /** The rows that wait, in order, leaving out the event with identity `but`. */
  function Waiting(rows: seq<Row>, but: Option<string>): seq<Row> {
    if rows == [] then []
    else (if rows[0].delivered || but == Some(rows[0].event.id) then [] else [rows[0]]) + Waiting(rows[1..], but)
  }

  /** The delivered rows, in order, counting the event with identity `too` among them. */
  function Done(rows: seq<Row>, too: Option<string>): seq<Row> {
    if rows == [] then []
    else
      (if rows[0].delivered || too == Some(rows[0].event.id) then [rows[0].(delivered := true)] else [])
      + Done(rows[1..], too)
  }

  function Last(rows: seq<Row>, n: nat): seq<Row> {
    if |rows| <= n then rows else rows[|rows| - n..]
  }

  ghost predicate Increasing(rows: seq<Row>) {
    forall i, j | 0 <= i < j < |rows| :: rows[i].rowid < rows[j].rowid
  }

  lemma {:induction false} MarkMoves(rows: seq<Row>, id: string)
    ensures Waiting(MarkDelivered(rows, id), None) == Waiting(rows, Some(id))
    ensures Done(MarkDelivered(rows, id), None) == Done(rows, Some(id))
    decreases |rows|
  {
    if rows == [] {
    } else {
      MarkMoves(rows[1..], id);
      assert MarkDelivered(rows, id)[1..] == MarkDelivered(rows[1..], id);
    }
  }

  lemma {:induction false} DoneCounts(rows: seq<Row>)
    ensures |Done(rows, None)| == Count(rows, true)
    decreases |rows|
  {
    if rows == [] {
    } else {
      DoneCounts(rows[1..]);
    }
  }

  lemma {:induction false} PruneKeepsNewest(rows: seq<Row>)
    ensures Waiting(Prune(rows), None) == Waiting(rows, None)
    ensures Done(Prune(rows), None) == Last(Done(rows, None), CAPACITY)
    decreases |rows|
  {
    if rows == [] {
    } else {
      PruneKeepsNewest(rows[1..]);
      DoneCounts(rows[1..]);
      if rows[0].delivered {
        assert Done(rows, None) == [rows[0]] + Done(rows[1..], None);
      }
    }
  }

  lemma {:induction false} PruneKeepsOrder(rows: seq<Row>)
    requires Increasing(rows)
    ensures Increasing(Prune(rows)) && forall i | 0 <= i < |Prune(rows)| :: rows[0].rowid <= Prune(rows)[i].rowid
    decreases |rows|
  {
    if rows == [] {
    } else {
      PruneKeepsOrder(rows[1..]);
    }
  }

  /** The end of a post, of any table: the rows that wait are those that did, but for the
      posted one, unchanged and in order; the delivered ones are the 10000 newest of those
      that were and the posted one; and the whole stays in rowid order. */
  lemma {:induction false} OnlyThePostedRowMoves(rows: seq<Row>, id: string)
    ensures
      var after := Prune(MarkDelivered(rows, id));
      && Waiting(after, None) == Waiting(rows, Some(id))
      && Done(after, None) == Last(Done(rows, Some(id)), 10000)
      && (Increasing(rows) ==> Increasing(after))
  {
    MarkMoves(rows, id);
    PruneKeepsNewest(MarkDelivered(rows, id));
    if Increasing(rows) { PruneKeepsOrder(MarkDelivered(rows, id)); }
  }

  // ---- what a runner is doing now -----------------------------------------

  /** The order in which observations of one runner replace each other. */
  datatype Rank = Rank(at: int, jobId: nat, finished: bool)

  function RankOf(e: Event): Rank {
    Rank(e.at.utc,
         if IsDigits(Text(e.jobId)) then DigitsValue(Text(e.jobId)) else 0,
         e.state == Finished)
  }

  /** Tuple comparison, `low <= high`. */
  predicate RankLe(low: Rank, high: Rank) {
    low.at < high.at ||
    (low.at == high.at && (low.jobId < high.jobId ||
                           (low.jobId == high.jobId && (low.finished ==> high.finished))))
  }

  predicate Identified(e: Event) {
    Present(e.job) && Present(e.runId)
  }

  predicate SameExecution(event: Event, current: Event) {
    && Present(event.runId) && event.runId == current.runId
    && event.attempt == current.attempt
    && (if Present(event.jobId) && Present(current.jobId)
        then event.jobId == current.jobId
        else event.job == current.job)
  }

  /** Whether a newly stored event becomes what its runner is shown doing. */
  predicate Displaces(current: Option<Event>, event: Event, now: int) {
    && Identified(event)
    && event.at.utc <= now + CLOCK_SKEW
    && !(current.Some? && SameExecution(event, current.value)
         && current.value.state == Finished && event.state == Started)
    && (current.None? || !Identified(current.value)
        || RankLe(RankOf(current.value), RankOf(event)))
  }

  function Lookup(table: map<string, Event>, runner: string): Option<Event> {
    if runner in table then Some(table[runner]) else None
  }

  // ---- what becomes current, field by field ----------------------------------

  predicate HasText(o: Option<string>) {
    o != None && o != Some("")
  }

  /** A job id read as a number; anything else counts as 0. */
  function IdNumber(e: Event): nat {
    if e.jobId.None? || e.jobId.value == "" || exists i | 0 <= i < |e.jobId.value| :: !('0' <= e.jobId.value[i] <= '9')
    then 0 else DigitsValue(e.jobId.value)
  }

  /** The current job is not later: by instant, then by job id, then by a finish coming
      after its start. */
  predicate NotLater(current: Event, event: Event) {
    || current.at.utc < event.at.utc
    || (current.at.utc == event.at.utc && IdNumber(current) < IdNumber(event))
    || (current.at.utc == event.at.utc && IdNumber(current) == IdNumber(event)
        && (current.state == Started || event.state == Finished))
  }

  /** A start of the very execution that is shown as finished: the same run and attempt,
      and the same job id where both have one, else the same job name. */
  predicate StartsFinished(current: Event, event: Event) {
    && current.state == Finished && event.state == Started
    && HasText(event.runId) && event.runId == current.runId && event.attempt == current.attempt
    && (if HasText(event.jobId) && HasText(current.jobId) then event.jobId == current.jobId
        else event.job == current.job)
  }

  /** What a stored event must be to become what its runner is doing. */
  predicate BecomesCurrent(jobs: map<string, Event>, runner: string, event: Event, now: int) {
    && HasText(event.job) && HasText(event.runId) && event.at.utc <= now + 30_000_000
    && (runner in jobs ==>
          && !StartsFinished(jobs[runner], event)
          && (HasText(jobs[runner].job) && HasText(jobs[runner].runId) ==> NotLater(jobs[runner], event)))
  }

  lemma {:induction false} RankIsOrder(current: Event, event: Event)
    ensures RankLe(RankOf(current), RankOf(event)) <==> NotLater(current, event)
  {
    RankId(current);
    RankId(event);
  }

  lemma {:induction false} RankId(e: Event)
    ensures RankOf(e).jobId == IdNumber(e)
  {
    if e.jobId.Some? { assert Text(e.jobId) == e.jobId.value; }
  }

  /** Exactly which stored event becomes current, in its own fields and those of the
      job that is current. */
  lemma {:induction false} DisplacesExactly(jobs: map<string, Event>, runner: string, event: Event, now: int)
    ensures Displaces(Lookup(jobs, runner), event, now) <==> BecomesCurrent(jobs, runner, event, now)
  {
    if runner in jobs { RankIsOrder(jobs[runner], event); }
  }

  /** The runner is known to be doing this job. */
  predicate Doing(jobs: map<string, Event>, failed: set<string>, runner: string, job: string) {
    && runner !in failed && runner in jobs && jobs[runner].state == Started
    && HasText(jobs[runner].runId) && jobs[runner].job == Some(job) && job != ""
  }

  // ---- validation ----------------------------------------------------------

  predicate BoundedText(o: Option<string>, limit: nat) {
    o.Some? ==>
      |o.value| <= limit && forall i | 0 <= i < |o.value| :: o.value[i] as int >= 32 && o.value[i] as int != 127
  }

  predicate IdentityChar(c: char) {
    'A' <= c <= 'Z' || 'a' <= c <= 'z' || IsDigit(c) || c in "_.:-"
  }

  const RESULTS: set<string> := {"success", "failure", "cancelled", "timed_out", "skipped", "neutral",
                                 "action_required", "stale"}

  /** `validate_event`: everything refused before a byte is stored. */
  predicate Valid(e: Event, runner: string) {
    && e.runner == runner
    && BoundedText(e.job, 200)
    && BoundedText(e.repo, 150) && BoundedText(e.commit, 150) && BoundedText(e.runId, 150)
    && BoundedText(e.attempt, 150) && BoundedText(e.jobId, 150)
    && 1 <= |e.id| <= 150 && (forall i | 0 <= i < |e.id| :: IdentityChar(e.id[i]))
    && |e.at.text| <= 40
    && (e.result.Some? ==> e.result.value in RESULTS)
    && (e.state == Started ==> e.result.None?)
  }

  /** Absent, or no longer than the limit and without a control character. */
  ghost predicate Clean(text: Option<string>, limit: nat) {
    text.Some? ==> |text.value| <= limit && forall c | c in text.value :: c as int > 31 && c as int != 127
  }

  /** A letter, a digit, or one of underscore, point, colon and hyphen. */
  predicate Plain(c: char) {
    || 65 <= c as int <= 90 || 97 <= c as int <= 122 || 48 <= c as int <= 57
    || c == '_' || c == '.' || c == ':' || c == '-'
  }

  /** Exactly which events are taken from a producer: of the runner whose spool it is, with
      clean texts of 200 characters for a job name and 150 for the others, an identity of
      1 to 150 plain characters, a timestamp of at most 40, and a result only on a finish
      and only one of the eight. */
  lemma {:induction false} ValidExactly(e: Event, runner: string)
    ensures Valid(e, runner) <==>
      && e.runner == runner && Clean(e.job, 200)
      && (forall text | text in [e.repo, e.commit, e.runId, e.attempt, e.jobId] :: Clean(text, 150))
      && 0 < |e.id| < 151 && (forall c | c in e.id :: Plain(c)) && |e.at.text| < 41
      && (e.result == None
          || (e.state == Finished
              && (|| e.result.value == "success" || e.result.value == "failure" || e.result.value == "cancelled"
                  || e.result.value == "timed_out" || e.result.value == "skipped" || e.result.value == "neutral"
                  || e.result.value == "action_required" || e.result.value == "stale")))
  {
    CleanIsBounded(e.job, 200);
    CleanIsBounded(e.repo, 150);
    CleanIsBounded(e.commit, 150);
    CleanIsBounded(e.runId, 150);
    CleanIsBounded(e.attempt, 150);
    CleanIsBounded(e.jobId, 150);
    PlainIsIdentity(e.id);
    hide Clean, BoundedText, Plain, IdentityChar;
    var texts := [e.repo, e.commit, e.runId, e.attempt, e.jobId];
    assert texts[0] in texts && texts[1] in texts && texts[2] in texts && texts[3] in texts && texts[4] in texts;
  }

  lemma {:induction false} CleanIsBounded(text: Option<string>, limit: nat)
    ensures Clean(text, limit) <==> BoundedText(text, limit)
  {
    if text.Some? && Clean(text, limit) {
      forall i | 0 <= i < |text.value| ensures text.value[i] as int >= 32 && text.value[i] as int != 127 {
        assert text.value[i] in text.value;
      }
    }
  }

  lemma {:induction false} PlainIsIdentity(id: string)
    ensures (forall c | c in id :: Plain(c)) <==> forall i | 0 <= i < |id| :: IdentityChar(id[i])
  {
    forall c ensures Plain(c) <==> IdentityChar(c) {}
    hide Plain, IdentityChar;
    if forall c | c in id :: Plain(c) {
      forall i | 0 <= i < |id| ensures IdentityChar(id[i]) { assert id[i] in id && Plain(id[i]); }
    }
  }

  datatype Outcome = Stored | Duplicate | Invalid | Conflict | Full

  /** Which way `record` leaves: stored, absorbed, or refused with an error. */
  function Verdict(rows: seq<Row>, runner: string, event: Event): Outcome {
    if !Valid(event, runner) then Invalid
    else
      var previous := FindEvent(rows, event.id);
      if previous.Some? then (if previous.value == event then Duplicate else Conflict)
      else if Count(rows, false) >= CAPACITY then Full
      else Stored
  }

  // ---- the sender -----------------------------------------------------------

  class JobEventSender {
    var rows: seq<Row>                   // table events
    var currentJobs: map<string, Event>  // table current_jobs
    var jobs: map<string, Event>         // the memory cache, `_jobs`
    var failedSources: set<string>

    /** `start`: open the outbox that is there and load the cache from it. */
    constructor (stored: seq<Row>, storedJobs: map<string, Event>)
      ensures rows == stored && currentJobs == storedJobs && jobs == storedJobs && failedSources == {}
    {
      rows, currentJobs, jobs, failedSources := stored, storedJobs, storedJobs, {};
    }

    method Record(runner: string, event: Event, now: int) returns (outcome: Outcome)
      modifies this`rows, this`currentJobs, this`jobs
      ensures outcome == Verdict(old(rows), runner, event)
      ensures rows == if outcome == Stored then Insert(old(rows), event) else old(rows)
      ensures var shown := outcome == Stored && Displaces(Lookup(old(jobs), runner), event, now);
              currentJobs == (if shown then old(currentJobs)[runner := event] else old(currentJobs)) &&
              jobs == (if shown then old(jobs)[runner := event] else old(jobs))
      ensures var current := outcome == Stored && BecomesCurrent(old(jobs), runner, event, now);
              currentJobs == (if current then old(currentJobs)[runner := event] else old(currentJobs)) &&
              jobs == (if current then old(jobs)[runner := event] else old(jobs))
    {
      DisplacesExactly(jobs, runner, event, now);
      if !Valid(event, runner) {
        return Invalid;
      }
      var previous := FindEvent(rows, event.id);
      if previous.Some? {
        return if previous.value == event then Duplicate else Conflict;
      }
      if Count(rows, false) >= CAPACITY {
        return Full;
      }
      rows := Insert(rows, event);
      var current := Lookup(jobs, runner);
      if Displaces(current, event, now) {
        currentJobs := currentJobs[runner := event];
        jobs := jobs[runner := event];
      }
      return Stored;
    }

    /** The clearing part of `reconcile`, for runners that are not running. */
    method Clear(stopped: set<string>)
      modifies this`currentJobs, this`jobs
      ensures currentJobs == old(currentJobs) - stopped
      ensures jobs == old(jobs) - stopped
    {
      currentJobs := currentJobs - stopped;
      var left := stopped;
      while left != {}
        invariant left <= stopped && currentJobs == old(currentJobs) - stopped
        invariant jobs == old(jobs) - (stopped - left)
        decreases left
      {
        var rid :| rid in left;
        jobs := jobs - {rid};
        left := left - {rid};
      }
    }

    /** One turn of `_deliver`, after the row was read: the post succeeded. */
    method Delivered(id: string)
      modifies this`rows
      ensures rows == Prune(MarkDelivered(old(rows), id))
      ensures Waiting(rows, None) == Waiting(old(rows), Some(id))
      ensures Done(rows, None) == Last(Done(old(rows), Some(id)), 10000)
      ensures Increasing(old(rows)) ==> Increasing(rows)
    {
      OnlyThePostedRowMoves(rows, id);
      rows := MarkDelivered(rows, id);
      rows := Prune(rows);
    }

    /** `jobs`: which of the asked runners are known to be in a job, and which. */
    method Jobs(runners: seq<string>) returns (shown: map<string, string>)
      ensures forall rid, job :: (rid in shown && shown[rid] == job) <==>
                rid in runners && Doing(jobs, failedSources, rid, job)
      ensures forall rid | rid in shown ::
                rid in runners && rid !in failedSources && rid in jobs
                && jobs[rid].state == Started && Identified(jobs[rid]) && jobs[rid].job == Some(shown[rid])
      ensures forall rid | rid in runners && rid !in failedSources && rid in jobs
                && jobs[rid].state == Started && Identified(jobs[rid]) :: rid in shown
    {
      shown := map[];
      for k := 0 to |runners|
        invariant forall rid | rid in shown ::
                    rid in runners && rid !in failedSources && rid in jobs
                    && jobs[rid].state == Started && Identified(jobs[rid]) && jobs[rid].job == Some(shown[rid])
        invariant forall j | 0 <= j < k && runners[j] !in failedSources && runners[j] in jobs
                    && jobs[runners[j]].state == Started && Identified(jobs[runners[j]]) :: runners[j] in shown
      {
        var rid := runners[k];
        if rid !in failedSources && rid in jobs {
          var event := jobs[rid];
          if event.state == Started && Present(event.job) && Present(event.runId) {
            shown := shown[rid := event.job.value];
          }
        }
      }
    }
  }
}
