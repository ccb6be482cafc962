/** The alarm outbox and its single deliverer (dashboard/alarm_notify.py
    `enqueue`, `backoff`, `deliver_due`; the part of `acknowledge` in
    dashboard/alarms.py that skips waiting rows). Rows are never deleted and ids
    are given in order, so a row's id is its position. Acknowledgements may
    arrive while a post is under way. */
module AlarmDelivery {
  import opened Basics
  import Alarms

  /** Whose message a row is: an alarm's, or a job's run's. The printed keys of different
      ones differ. */
  datatype Subject = Alarm(key: Alarms.Key) | JobRun(name: string)

  datatype State = Pending | Sent | Failed | Skipped

  datatype Row = Row(
    key: Subject, event: string, raisedAt: Option<int>, isJob: bool,
    state: State, attempts: nat, nextAt: int, doneAt: Option<int>, error: Option<string>)

  /** What the receiver, or the lack of one, answered. */
  datatype Answer = Accepted | Refused(why: string) | Limited(wait: real, why: string)

  datatype Url = Unset | NotHttp | Usable(discord: bool)

  const MAX_ATTEMPTS := 8
  const BATCH := 10
  const PASS_LIMIT := 100

  function Stamp(now: real): int {
    now.Floor
  }

  function Pow2(n: nat): nat {
    if n == 0 then 1 else 2 * Pow2(n - 1)
  }

  function Backoff(attempts: nat): nat
    requires attempts > 0
  {
    if 30 * Pow2(attempts - 1) < 1800 then 30 * Pow2(attempts - 1) else 1800
  }

  // ---- statements ---------------------------------------------------------------

  /** Rows satisfying the UNIQUE (alarm_key, event, raised_at). */
  predicate Holds(rows: seq<Row>, key: Subject, event: string, raisedAt: Option<int>) {
    exists i | 0 <= i < |rows| :: rows[i].key == key && rows[i].event == event && rows[i].raisedAt == raisedAt
  }

  const SENDABLE: set<string> := {"raised", "resolved", "started", "finished"}

  function Enqueued(
    rows: seq<Row>, key: Subject, event: string, raisedAt: Option<int>, isJob: bool, wanted: bool, now: real): seq<Row>
  {
    if event !in SENDABLE || !wanted || Holds(rows, key, event, raisedAt) then rows
    else rows + [Row(key, event, raisedAt, isJob, Pending, 0, Stamp(now), None, None)]
  }

  function Map(rows: seq<Row>, f: (nat, Row) -> Row): (r: seq<Row>)
    ensures |r| == |rows| && forall i | 0 <= i < |rows| :: r[i] == f(i, rows[i])
  {
    seq(|rows|, i requires 0 <= i < |rows| => f(i, rows[i]))
  }

  /** Waiting rows of acknowledged alarms are not sent any more. */
  function Acknowledged(rows: seq<Row>, key: Subject, now: real): seq<Row> {
    Map(rows, (i, row: Row) =>
      if row.key == key && row.state == Pending
      then row.(state := Skipped, doneAt := Some(Stamp(now)), error := Some("acknowledged")) else row)
  }

  function Skip(rows: seq<Row>, ids: seq<nat>, why: Option<string>, now: real): seq<Row> {
    Map(rows, (i, row: Row) =>
      if i in ids then row.(state := Skipped, doneAt := Some(Stamp(now)), error := if why.Some? then why else row.error)
      else row)
  }

  /** WHERE state='pending' AND next_at<=? ORDER BY id */
  function Due(rows: seq<Row>, now: int): (ids: seq<nat>)
    ensures forall k | 0 <= k < |ids| :: ids[k] < |rows|
  {
    if rows == [] then []
    else
      var last := rows[|rows| - 1];
      Due(rows[..|rows| - 1], now) + (if last.state == Pending && last.nextAt <= now then [|rows| - 1] else [])
  }

  function DueNow(rows: seq<Row>, now: real): (ids: seq<nat>)
    ensures forall k | 0 <= k < |ids| :: ids[k] < |rows|
  {
    var all := Due(rows, Stamp(now));
    if |all| <= PASS_LIMIT then all else all[..PASS_LIMIT]
  }

  /** One row of a counted post: what it was when the pass began, one attempt on. */
  function Settled(row: Row, before: Row, answer: Answer, now: real): Row {
    var attempts := before.attempts + 1;
    match answer
    case Accepted => row.(state := Sent, attempts := attempts, doneAt := Some(Stamp(now)), error := None)
    case Refused(why) =>
      if attempts >= MAX_ATTEMPTS
      then row.(state := Failed, attempts := attempts, doneAt := Some(Stamp(now)), error := Some(why))
      else row.(attempts := attempts, nextAt := Stamp(now + Backoff(attempts) as real), error := Some(why))
    case Limited(_, _) => row
  }

  function Settle(rows: seq<Row>, before: seq<Row>, ids: seq<nat>, answer: Answer, now: real): seq<Row> {
    Map(rows, (i, row: Row) => if i in ids && i < |before| then Settled(row, before[i], answer, now) else row)
  }

  function Postpone(rows: seq<Row>, ids: seq<nat>, wait: real, why: string, now: real): seq<Row> {
    Map(rows, (i, row: Row) => if i in ids then row.(nextAt := Stamp(now + wait), error := Some(why)) else row)
  }

  function Concat(batches: seq<seq<nat>>): seq<nat> {
    if batches == [] then [] else batches[0] + Concat(batches[1..])
  }

  // ---- batching -------------------------------------------------------------------

  /** Finished batches and the job batch being filled. */
  datatype Batching = Batching(done: seq<seq<nat>>, jobs: seq<nat>)

  function Add(b: Batching, id: nat, job: bool): Batching {
    if job then
      if |b.jobs| + 1 == BATCH then Batching(b.done + [b.jobs + [id]], []) else b.(jobs := b.jobs + [id])
    else Batching((if b.jobs != [] then b.done + [b.jobs] else b.done) + [[id]], [])
  }

  function Fill(rows: seq<Row>, ids: seq<nat>, discord: bool): Batching {
    if ids == [] then Batching([], [])
    else
      var id := ids[|ids| - 1];
      Add(Fill(rows, ids[..|ids| - 1], discord), id, discord && id < |rows| && rows[id].isJob)
  }

  function Batches(rows: seq<Row>, ids: seq<nat>, discord: bool): seq<seq<nat>> {
    var b := Fill(rows, ids, discord);
    if b.jobs != [] then b.done + [b.jobs] else b.done
  }

  // ---- a pass -----------------------------------------------------------------------

  /** One post and what was written down about it: `recorded` are the rows whose
      outcome was committed before the process died, all of them if it lived. */
  datatype Post = Post(ids: seq<nat>, answer: Answer, recorded: seq<nat>)

  /** What other threads do to the outbox. */
  datatype Change =
    | Enqueue(key: Subject, event: string, raisedAt: Option<int>, isJob: bool, wanted: bool, at: real)
    | Acknowledge(key: Subject, at: real)

  function Changed(rows: seq<Row>, change: Change): seq<Row> {
    match change
    case Enqueue(key, event, raisedAt, isJob, wanted, at) => Enqueued(rows, key, event, raisedAt, isJob, wanted, at)
    case Acknowledge(key, at) => Acknowledged(rows, key, at)
  }

  function Changes(rows: seq<Row>, changes: seq<Change>): seq<Row>
    decreases |changes|
  {
    if changes == [] then rows else Changes(Changed(rows, changes[0]), changes[1..])
  }

  lemma {:induction false} ChangesGrow(rows: seq<Row>, changes: seq<Change>)
    ensures |rows| <= |Changes(rows, changes)|
    decreases |changes|
  {
    if changes == [] {
    } else {
      ChangesGrow(Changed(rows, changes[0]), changes[1..]);
    }
  }

  /** What happens around one post: the changes made meanwhile, the answer, and,
      if the process dies, after how many of the batch's rows were written. */
  datatype Meanwhile = Meanwhile(changes: seq<Change>, answer: Answer, died: Option<nat>)

  function Written(batch: seq<nat>, died: Option<nat>): seq<nat> {
    if died.Some? && died.value < |batch| then batch[..died.value] else batch
  }

  datatype Box = Box(rows: seq<Row>, posts: seq<Post>)

  /** The box after the first of the batches left: posted, and its answer written
      down over the rows `before` that were read at the start of the pass. */
  function AfterOne(box: Box, before: seq<Row>, batches: seq<seq<nat>>, here: Meanwhile, now: real): Box
    requires batches != []
  {
    var rows := Changes(box.rows, here.changes);
    if here.answer.Limited? then
      Box(if here.died.Some? then rows else Postpone(rows, Concat(batches), here.answer.wait, here.answer.why, now),
          box.posts + [Post(batches[0], here.answer, [])])
    else
      var written := Written(batches[0], here.died);
      Box(Settle(rows, before, written, here.answer, now), box.posts + [Post(batches[0], here.answer, written)])
  }

  /** The posts of one pass. */
  function Send(box: Box, before: seq<Row>, batches: seq<seq<nat>>, world: nat -> Meanwhile, n: nat, now: real): Box
    decreases |batches|
  {
    if batches == [] then box
    else
      var here := world(n);
      var next := AfterOne(box, before, batches, here, now);
      if here.answer.Limited? || here.died.Some? then next else Send(next, before, batches[1..], world, n + 1, now)
  }

  const BAD_URL := "ALARM_WEBHOOK_URL is not an http(s) URL"

  /** `deliver_due` */
  function Pass(box: Box, url: Url, world: nat -> Meanwhile, now: real): Box {
    var ids := DueNow(box.rows, now);
    match url
    case Unset => box.(rows := Skip(box.rows, ids, None, now))
    case NotHttp => box.(rows := Skip(box.rows, ids, Some(BAD_URL), now))
    case Usable(discord) => Send(box, box.rows, Batches(box.rows, ids, discord), world, 0, now)
  }

  datatype Input =
    | Meantime(change: Change)
    | Deliver(url: Url, world: nat -> Meanwhile, at: real)

  function Apply(box: Box, input: Input): Box {
    match input
    case Meantime(change) => box.(rows := Changed(box.rows, change))
    case Deliver(url, world, at) => Pass(box, url, world, at)
  }

  function Exec(box: Box, inputs: seq<Input>): Box
    decreases |inputs|
  {
    if inputs == [] then box else Exec(Apply(box, inputs[0]), inputs[1..])
  }

  const EMPTY := Box([], [])

  // ---- batching is a partition in order --------------------------------------------------

  ghost predicate GoodBatch(rows: seq<Row>, batch: seq<nat>, discord: bool) {
    && 1 <= |batch| <= BATCH
    && (|batch| > 1 ==> discord && forall k | 0 <= k < |batch| :: batch[k] < |rows| && rows[batch[k]].isJob)
  }

  lemma {:induction false} ConcatAppends(batches: seq<seq<nat>>, batch: seq<nat>)
    ensures Concat(batches + [batch]) == Concat(batches) + batch
    decreases |batches|
  {
    if batches == [] {
      assert [batch][1..] == [];
    } else {
      assert (batches + [batch])[1..] == batches[1..] + [batch];
      ConcatAppends(batches[1..], batch);
    }
  }

  lemma {:induction false} InConcat(batches: seq<seq<nat>>, j: nat, i: nat)
    requires j < |batches| && i in batches[j]
    ensures i in Concat(batches)
    decreases |batches|
  {
    if j == 0 {
    } else {
      InConcat(batches[1..], j - 1, i);
    }
  }

  ghost predicate GoodFill(rows: seq<Row>, ids: seq<nat>, discord: bool, b: Batching) {
    && Concat(b.done) + b.jobs == ids
    && (forall k | 0 <= k < |b.done| :: GoodBatch(rows, b.done[k], discord))
    && |b.jobs| < BATCH && (b.jobs != [] ==> GoodBatch(rows, b.jobs, discord))
    && (forall k | 0 <= k < |b.jobs| :: discord && b.jobs[k] < |rows| && rows[b.jobs[k]].isJob)
  }

  lemma {:induction false} AddKeeps(rows: seq<Row>, ids: seq<nat>, discord: bool, b: Batching, id: nat)
    requires GoodFill(rows, ids, discord, b)
    ensures GoodFill(rows, ids + [id], discord, Add(b, id, discord && id < |rows| && rows[id].isJob))
  {
    var job := discord && id < |rows| && rows[id].isJob;
    if job {
      ConcatAppends(b.done, b.jobs + [id]);
      assert Concat(b.done) + (b.jobs + [id]) == ids + [id];
    } else {
      ConcatAppends(b.done, b.jobs);
      var done := if b.jobs != [] then b.done + [b.jobs] else b.done;
      assert Concat(done) == ids;
      ConcatAppends(done, [id]);
    }
  }

  lemma {:induction false} FillIsGood(rows: seq<Row>, ids: seq<nat>, discord: bool)
    ensures GoodFill(rows, ids, discord, Fill(rows, ids, discord))
    decreases |ids|
  {
    if ids == [] {
    } else {
      FillIsGood(rows, ids[..|ids| - 1], discord);
      AddKeeps(rows, ids[..|ids| - 1], discord, Fill(rows, ids[..|ids| - 1], discord), ids[|ids| - 1]);
      assert ids[..|ids| - 1] + [ids[|ids| - 1]] == ids;
    }
  }

  /** Batches are not empty, hold at most ten rows, join only Discord job
      messages, and together are the due rows in id order. */
  lemma {:induction false} BatchesPartition(rows: seq<Row>, ids: seq<nat>, discord: bool)
    ensures Concat(Batches(rows, ids, discord)) == ids
    ensures forall k | 0 <= k < |Batches(rows, ids, discord)| ::
        GoodBatch(rows, Batches(rows, ids, discord)[k], discord)
  {
    FillIsGood(rows, ids, discord);
    var b := Fill(rows, ids, discord);
    ConcatAppends(b.done, b.jobs);
  }

  predicate JobMessage(rows: seq<Row>, id: nat, discord: bool) {
    discord && id < |rows| && rows[id].isJob
  }

  /** Between two batches there is a reason: the first is full, or one of the two messages
      that meet there is not a Discord job message. */
  predicate MustPart(rows: seq<Row>, batch: seq<nat>, next: seq<nat>, discord: bool) {
    || |batch| == BATCH || batch == [] || next == []
    || !JobMessage(rows, batch[|batch| - 1], discord) || !JobMessage(rows, next[0], discord)
  }

  ghost predicate AllPart(rows: seq<Row>, batches: seq<seq<nat>>, discord: bool) {
    forall k | 0 <= k < |batches| - 1 :: MustPart(rows, batches[k], batches[k + 1], discord)
  }

  function Finished(b: Batching): seq<seq<nat>> {
    if b.jobs != [] then b.done + [b.jobs] else b.done
  }

  lemma {:induction false} PartAppends(rows: seq<Row>, batches: seq<seq<nat>>, batch: seq<nat>, discord: bool)
    requires AllPart(rows, batches, discord)
    requires batches != [] ==> MustPart(rows, batches[|batches| - 1], batch, discord)
    ensures AllPart(rows, batches + [batch], discord)
  {
    var all := batches + [batch];
    forall k | 0 <= k < |all| - 1 ensures MustPart(rows, all[k], all[k + 1], discord) {
      if k < |batches| - 1 { assert MustPart(rows, batches[k], batches[k + 1], discord); }
    }
  }

  lemma {:induction false} AddParts(rows: seq<Row>, ids: seq<nat>, discord: bool, b: Batching, id: nat)
    requires GoodFill(rows, ids, discord, b) && AllPart(rows, Finished(b), discord) && AllPart(rows, b.done, discord)
    requires b.jobs == [] && b.done != [] ==>
               MustPart(rows, b.done[|b.done| - 1], [id], discord) || !JobMessage(rows, id, discord)
    requires b.jobs != [] ==> forall k | 0 <= k < |b.jobs| :: JobMessage(rows, b.jobs[k], discord)
    ensures
      var added := Add(b, id, JobMessage(rows, id, discord));
      AllPart(rows, added.done, discord) && AllPart(rows, Finished(added), discord)
  {
    var added := Add(b, id, JobMessage(rows, id, discord));
    if b.jobs != [] && b.done != [] {
      assert Finished(b)[|b.done| - 1] == b.done[|b.done| - 1] && Finished(b)[|b.done|] == b.jobs;
      assert MustPart(rows, Finished(b)[|b.done| - 1], Finished(b)[|b.done|], discord);
    }
    if JobMessage(rows, id, discord) {
      PartAppends(rows, b.done, b.jobs + [id], discord);
    } else {
      PartAppends(rows, Finished(b), [id], discord);
    }
  }

  /** The last finished batch is full, or ends in a message that is not joined. */
  ghost predicate ClosedEnd(rows: seq<Row>, b: Batching, discord: bool) {
    b.done != [] && b.jobs == [] ==>
      var last := b.done[|b.done| - 1];
      |last| == BATCH || (last != [] && !JobMessage(rows, last[|last| - 1], discord))
  }

  lemma {:induction false} AddCloses(rows: seq<Row>, b: Batching, id: nat, discord: bool)
    requires |b.jobs| < BATCH
    ensures ClosedEnd(rows, Add(b, id, JobMessage(rows, id, discord)), discord)
  {
  }

  lemma {:induction false} FillParts(rows: seq<Row>, ids: seq<nat>, discord: bool)
    ensures
      var b := Fill(rows, ids, discord);
      && GoodFill(rows, ids, discord, b) && ClosedEnd(rows, b, discord)
      && AllPart(rows, b.done, discord) && AllPart(rows, Finished(b), discord)
    decreases |ids|
  {
    FillIsGood(rows, ids, discord);
    if ids == [] {
    } else {
      var init, id := ids[..|ids| - 1], ids[|ids| - 1];
      FillParts(rows, init, discord);
      var b := Fill(rows, init, discord);
      AddCloses(rows, b, id, discord);
      EndsClosed(rows, b, id, discord);
      JobsAreMessages(rows, init, discord, b);
      AddParts(rows, init, discord, b, id);
      hide Add, AllPart, ClosedEnd, GoodFill, Finished;
    }
  }

  lemma {:induction false} EndsClosed(rows: seq<Row>, b: Batching, id: nat, discord: bool)
    requires ClosedEnd(rows, b, discord)
    ensures b.jobs == [] && b.done != [] ==>
              MustPart(rows, b.done[|b.done| - 1], [id], discord) || !JobMessage(rows, id, discord)
  {
  }

  lemma {:induction false} JobsAreMessages(rows: seq<Row>, ids: seq<nat>, discord: bool, b: Batching)
    requires GoodFill(rows, ids, discord, b)
    ensures forall k | 0 <= k < |b.jobs| :: JobMessage(rows, b.jobs[k], discord)
    ensures |b.jobs| < BATCH
  {
  }

  /** Due job messages to Discord are joined wherever they can be: two batches that follow
      each other could not be more of one. Together with the above this leaves one way to
      batch. */
  lemma {:induction false} BatchesJoin(rows: seq<Row>, ids: seq<nat>, discord: bool)
    ensures AllPart(rows, Batches(rows, ids, discord), discord)
    ensures forall k | 0 <= k < |Batches(rows, ids, discord)| :: 1 <= |Batches(rows, ids, discord)[k]| <= 10
  {
    FillParts(rows, ids, discord);
    BatchesPartition(rows, ids, discord);
    var batches := Batches(rows, ids, discord);
    assert batches == Finished(Fill(rows, ids, discord));
    forall k | 0 <= k < |batches| ensures 1 <= |batches[k]| <= 10 {
      assert GoodBatch(rows, batches[k], discord);
    }
  }

  /** Which events get a row: a raise, a resolve, a job's start and its finish, when wanted
      and when the same one has none; it waits from the moment it happened, and nothing
      else changes. */
  lemma {:induction false} EnqueuedExactly(
    rows: seq<Row>, key: Subject, event: string, raisedAt: Option<int>, isJob: bool, wanted: bool, now: real)
    ensures
      var sent := event == "raised" || event == "resolved" || event == "started" || event == "finished";
      var there := exists k | 0 <= k < |rows| ::
        rows[k].key == key && rows[k].event == event && rows[k].raisedAt == raisedAt;
      Enqueued(rows, key, event, raisedAt, isJob, wanted, now) ==
        if sent && wanted && !there
        then rows + [Row(key, event, raisedAt, isJob, Pending, 0, now.Floor, None, None)] else rows
  {
  }

  lemma {:induction false} BackoffDoublesToHalfAnHour(n: nat)
    requires n > 0
    ensures 30 <= Backoff(n) <= 1800
    ensures n <= 6 ==> Backoff(n) == 30 * Pow2(n - 1)
    ensures n >= 7 ==> Backoff(n) == 1800
    ensures n <= 5 ==> Backoff(n + 1) == 2 * Backoff(n)
    decreases n
  {
    if n > 1 {
      BackoffDoublesToHalfAnHour(n - 1);
      if n >= 7 { Pow2Grows(6, n - 1); }
    }
  }

  lemma {:induction false} Pow2Grows(m: nat, n: nat)
    requires m <= n
    ensures Pow2(m) <= Pow2(n)
    decreases n
  {
    if m < n { Pow2Grows(m, n - 1); }
  }
}
