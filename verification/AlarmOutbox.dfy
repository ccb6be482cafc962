/** The outbox table changed in place, as dashboard/alarm_notify.py and the
    acknowledgement in dashboard/alarms.py change it. The posts made are kept in a
    log so that what was sent can be spoken of. */
module AlarmOutbox {
  import opened Basics
  import opened AlarmDelivery

  /** The rows whose acceptance was written down by these posts, in order. */
  function SentBy(posts: seq<Post>): seq<nat> {
    if posts == [] then []
    else
      var last := posts[|posts| - 1];
      SentBy(posts[..|posts| - 1]) + (if last.answer.Accepted? then last.recorded else [])
  }

  lemma {:induction false} FillNext(rows: seq<Row>, ids: seq<nat>, k: nat, discord: bool)
    requires k < |ids| && ids[k] < |rows|
    ensures Fill(rows, ids[..k + 1], discord)
        == Add(Fill(rows, ids[..k], discord), ids[k], discord && rows[ids[k]].isJob)
  {
    assert ids[..k + 1][..k] == ids[..k];
  }

  /** Writing one more row of a batch down. */
  lemma {:induction false} SettleNext(
    rows: seq<Row>, before: seq<Row>, batch: seq<nat>, m: nat, answer: Answer, now: real)
    requires m < |batch| && batch[m] < |rows| && batch[m] < |before|
    ensures
      var id, so := batch[m], Settle(rows, before, batch[..m], answer, now);
      Settle(rows, before, batch[..m + 1], answer, now) == so[id := Settled(so[id], before[id], answer, now)]
  {
    assert batch[..m + 1] == batch[..m] + [batch[m]];
  }

  class AlarmOutbox {
    var rows: seq<Row>
    var posts: seq<Post>

    constructor ()
      ensures Contents() == EMPTY
    {
      rows, posts := [], [];
    }

    function Contents(): Box
      reads this
    {
      Box(rows, posts)
    }

    method Enqueue(key: Subject, event: string, raisedAt: Option<int>, isJob: bool, wanted: bool, now: real)
      modifies this
      ensures Contents() == Apply(old(Contents()), Meantime(Change.Enqueue(key, event, raisedAt, isJob, wanted, now)))
    {
      if event !in SENDABLE || !wanted { return; }
      for k := 0 to |rows|
        invariant rows == old(rows) && posts == old(posts)
        invariant forall i | 0 <= i < k ::
            !(rows[i].key == key && rows[i].event == event && rows[i].raisedAt == raisedAt)
      {
        if rows[k].key == key && rows[k].event == event && rows[k].raisedAt == raisedAt { return; }
      }
      rows := rows + [Row(key, event, raisedAt, isJob, Pending, 0, Stamp(now), None, None)];
    }

    method Acknowledge(key: Subject, now: real)
      modifies this
      ensures Contents() == Apply(old(Contents()), Meantime(Change.Acknowledge(key, now)))
    {
      for k := 0 to |rows|
        invariant |rows| == |old(rows)| && posts == old(posts)
        invariant rows[..k] == Acknowledged(old(rows), key, now)[..k]
        invariant rows[k..] == old(rows)[k..]
      {
        if rows[k].key == key && rows[k].state == Pending {
          rows := rows[k := rows[k].(state := Skipped, doneAt := Some(Stamp(now)), error := Some("acknowledged"))];
        }
      }
      assert rows == Acknowledged(old(rows), key, now);
    }

    /** The rows read at the start of a pass. */
    method Select(now: real) returns (ids: seq<nat>)
      ensures ids == DueNow(rows, now)
    {
      ids := [];
      for k := 0 to |rows|
        invariant ids == Due(rows[..k], Stamp(now))
      {
        assert rows[..k + 1][..k] == rows[..k];
        if rows[k].state == Pending && rows[k].nextAt <= Stamp(now) { ids := ids + [k]; }
      }
      assert rows[..|rows|] == rows;
      if |ids| > PASS_LIMIT { ids := ids[..PASS_LIMIT]; }
    }

    method SkipAll(ids: seq<nat>, why: Option<string>, now: real)
      requires forall k | 0 <= k < |ids| :: ids[k] < |rows|
      modifies this
      ensures rows == Skip(old(rows), ids, why, now) && posts == old(posts)
    {
      for k := 0 to |ids|
        invariant posts == old(posts) && |rows| == |old(rows)|
        invariant rows == Skip(old(rows), ids[..k], why, now)
      {
        var row := rows[ids[k]];
        rows := rows[ids[k] := row.(
          state := Skipped, doneAt := Some(Stamp(now)), error := if why.Some? then why else row.error)];
        assert ids[..k + 1] == ids[..k] + [ids[k]];
      }
      assert ids[..|ids|] == ids;
    }

    /** Job messages to Discord are gathered by tens; anything else goes alone and
        sends off the messages gathered before it. */
    method BuildBatches(ids: seq<nat>, discord: bool) returns (batches: seq<seq<nat>>)
      requires forall k | 0 <= k < |ids| :: ids[k] < |rows|
      ensures batches == Batches(rows, ids, discord)
    {
      batches := [];
      var jobs: seq<nat> := [];
      for k := 0 to |ids|
        invariant Batching(batches, jobs) == Fill(rows, ids[..k], discord)
      {
        FillNext(rows, ids, k, discord);
        if discord && rows[ids[k]].isJob {
          jobs := jobs + [ids[k]];
          if |jobs| == BATCH {
            batches := batches + [jobs];
            jobs := [];
          }
        } else {
          if jobs != [] {
            batches := batches + [jobs];
            jobs := [];
          }
          batches := batches + [[ids[k]]];
        }
      }
      assert ids[..|ids|] == ids;
      if jobs != [] { batches := batches + [jobs]; }
    }

    /** The rows of one answered batch, one commit each, until the process dies. */
    method WriteDown(before: seq<Row>, batch: seq<nat>, answer: Answer, died: Option<nat>, now: real)
      requires forall k | 0 <= k < |batch| :: batch[k] < |before| <= |rows|
      requires !answer.Limited?
      modifies this
      ensures rows == Settle(old(rows), before, Written(batch, died), answer, now)
      ensures posts == old(posts) + [Post(batch, answer, Written(batch, died))]
    {
      posts := posts + [Post(batch, answer, Written(batch, died))];
      for m := 0 to |Written(batch, died)|
        invariant posts == old(posts) + [Post(batch, answer, Written(batch, died))]
        invariant |rows| == |old(rows)| && rows == Settle(old(rows), before, batch[..m], answer, now)
      {
        SettleNext(old(rows), before, batch, m, answer, now);
        var row, attempts := rows[batch[m]], before[batch[m]].attempts + 1;
        if answer.Accepted? {
          row := row.(state := Sent, attempts := attempts, doneAt := Some(Stamp(now)), error := None);
        } else if attempts >= MAX_ATTEMPTS {
          row := row.(state := Failed, attempts := attempts, doneAt := Some(Stamp(now)), error := Some(answer.why));
        } else {
          row := row.(attempts := attempts, nextAt := Stamp(now + Backoff(attempts) as real),
              error := Some(answer.why));
        }
        rows := rows[batch[m] := row];
      }
      assert Written(batch, died) == batch[..|Written(batch, died)|];
    }

    method Defer(batches: seq<seq<nat>>, wait: real, why: string, now: real)
      requires forall k, i | 0 <= k < |batches| && i in batches[k] :: i < |rows|
      modifies `rows
      ensures rows == Postpone(old(rows), Concat(batches), wait, why, now)
    {
      var later: seq<nat> := [];
      for k := 0 to |batches|
        invariant rows == old(rows)
        invariant later == Concat(batches[..k]) && forall i | i in later :: i < |rows|
      {
        assert batches[..k + 1] == batches[..k] + [batches[k]];
        ConcatAppends(batches[..k], batches[k]);
        later := later + batches[k];
      }
      assert batches[..|batches|] == batches;
      for k := 0 to |later|
        invariant |rows| == |old(rows)| && rows == Postpone(old(rows), later[..k], wait, why, now)
      {
        assert later[..k + 1] == later[..k] + [later[k]];
        assert later[k] in later;
        rows := rows[later[k] := rows[later[k]].(nextAt := Stamp(now + wait), error := Some(why))];
      }
      assert later[..|later|] == later;
    }

    /** `deliver_due`, with what happens around each post given by `world`. Returns
        the rows whose acceptance it wrote down. */
    method DeliverDue(url: Url, world: nat -> Meanwhile, now: real) returns (sent: seq<nat>)
      modifies this
      ensures Contents() == Apply(old(Contents()), Deliver(url, world, now))
      ensures old(posts) <= posts && sent == SentBy(posts[|old(posts)|..])
    {
      var ids := Select(now);
      var before := rows;
      sent := [];
      if url.Unset? {
        SkipAll(ids, None, now);
        return;
      }
      if url.NotHttp? {
        SkipAll(ids, Some(BAD_URL), now);
        return;
      }
      var batches := BuildBatches(ids, url.discord);
      BatchesPartition(before, ids, url.discord);
      forall k, i | 0 <= k < |batches| && i in batches[k] ensures i < |before| {
        InConcat(batches, k, i);
      }
      sent := PostAll(before, batches, world, now);
    }

    method PostAll(before: seq<Row>, batches: seq<seq<nat>>, world: nat -> Meanwhile, now: real)
      returns (sent: seq<nat>)
      requires |before| <= |rows| && forall k, i | 0 <= k < |batches| && i in batches[k] :: i < |before|
      modifies this
      ensures Contents() == Send(old(Contents()), before, batches, world, 0, now)
      ensures old(posts) <= posts && sent == SentBy(posts[|old(posts)|..])
    {
      sent := [];
      var n := 0;
      while n < |batches|
        invariant n <= |batches| && |before| <= |rows|
        invariant old(posts) <= posts && sent == SentBy(posts[|old(posts)|..])
        invariant Send(old(Contents()), before, batches, world, 0, now)
            == Send(Contents(), before, batches[n..], world, n, now)
      {
        var here := world(n);
        PostOne(before, batches[n..], here, now);
        SentByGrows(posts, |old(posts)|);
        if here.answer.Accepted? { sent := sent + Written(batches[n], here.died); }
        if here.answer.Limited? || here.died.Some? { return; }
        assert batches[n..][1..] == batches[n + 1..];
        n := n + 1;
      }
    }

    /** The first of the batches left: posted, and its answer written down. */
    method PostOne(before: seq<Row>, batches: seq<seq<nat>>, here: Meanwhile, now: real)
      requires batches != [] && |before| <= |rows|
      requires forall k, i | 0 <= k < |batches| && i in batches[k] :: i < |before|
      modifies this
      ensures Contents() == AfterOne(old(Contents()), before, batches, here, now)
      ensures |before| <= |rows| && |posts| == |old(posts)| + 1 && old(posts) == posts[..|old(posts)|]
    {
      ChangesGrow(rows, here.changes);
      rows := Changes(rows, here.changes);
      if here.answer.Limited? {
        posts := posts + [Post(batches[0], here.answer, [])];
        if here.died.None? { Defer(batches, here.answer.wait, here.answer.why, now); }
      } else {
        forall k | 0 <= k < |batches[0]| ensures batches[0][k] < |before| {
          assert batches[0][k] in batches[0];
        }
        WriteDown(before, batches[0], here.answer, here.died, now);
      }
    }
  }

  lemma {:induction false} SentByGrows(posts: seq<Post>, from: nat)
    requires from < |posts|
    ensures
      var last := posts[|posts| - 1];
      SentBy(posts[from..])
          == SentBy(posts[..|posts| - 1][from..]) + (if last.answer.Accepted? then last.recorded else [])
  {
    assert posts[from..][..|posts| - 1 - from] == posts[..|posts| - 1][from..];
  }
}
