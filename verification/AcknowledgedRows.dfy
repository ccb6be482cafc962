/** Which rows of the alarm outbox are posted, and which still are after their alarm was
    acknowledged (dashboard/alarm_notify.py `deliver_due`; the part of `acknowledge` in
    dashboard/alarms.py that skips waiting rows). */
module AcknowledgedRows {
  import opened Basics
  import opened AlarmDelivery
  import opened DeliveryRuns

  // ---- the posts of a pass --------------------------------------------------------------

  /** The pass gets as far as batch j: no rate limit and no death before it. */
  ghost predicate Reached(world: nat -> Meanwhile, from: nat, j: nat) {
    forall l | from <= l < from + j :: Settles(world(l))
  }

  /** How many batches are posted. */
  function Reach(count: nat, world: nat -> Meanwhile, n: nat): nat {
    if count == 0 then 0 else if !Settles(world(n)) then 1 else 1 + Reach(count - 1, world, n + 1)
  }

  lemma {:induction false} ReachMeans(count: nat, world: nat -> Meanwhile, n: nat, k: nat)
    ensures k < Reach(count, world, n) <==> k < count && Reached(world, n, k)
    decreases count
  {
    if count > 0 && k > 0 {
      ReachMeans(count - 1, world, n + 1, k - 1);
      if Reached(world, n, k) { assert Settles(world(n)); }
      if Settles(world(n)) && Reached(world, n + 1, k - 1) {
        forall l | n <= l < n + k ensures Settles(world(l)) {}
      }
    }
  }

  function PostOf(batch: seq<nat>, here: Meanwhile): Post {
    Post(batch, here.answer, if here.answer.Limited? then [] else Written(batch, here.died))
  }

  /** The posts begin with the old ones, and the others are the batches in order, up to
      and with the first that is rate-limited or that the process dies over. */
  ghost predicate InOrder(old_: seq<Post>, posts: seq<Post>, batches: seq<seq<nat>>, world: nat -> Meanwhile, n: nat) {
    var reach := Reach(|batches|, world, n);
    && reach <= |batches| && |posts| == |old_| + reach && posts[..|old_|] == old_
    && forall k | 0 <= k < reach :: posts[|old_| + k] == PostOf(batches[k], world(n + k))
  }

  lemma {:induction false} OrderFollows(
    old_: seq<Post>, next: seq<Post>, posts: seq<Post>, batches: seq<seq<nat>>, world: nat -> Meanwhile, n: nat)
    requires batches != [] && Settles(world(n)) && next == old_ + [PostOf(batches[0], world(n))]
    requires InOrder(next, posts, batches[1..], world, n + 1)
    ensures InOrder(old_, posts, batches, world, n)
  {
    hide PostOf;
    assert posts[..|old_|] == posts[..|next|][..|old_|];
    forall k | 0 <= k < Reach(|batches|, world, n)
      ensures posts[|old_| + k] == PostOf(batches[k], world(n + k))
    {
      if k == 0 {
        assert posts[|old_|] == posts[..|next|][|old_|];
      } else {
        assert posts[|next| + (k - 1)] == PostOf(batches[1..][k - 1], world(n + 1 + (k - 1)));
      }
    }
  }

  lemma {:induction false} OnePost(box: Box, before: seq<Row>, batches: seq<seq<nat>>, here: Meanwhile, now: real)
    requires batches != []
    ensures AfterOne(box, before, batches, here, now).posts == box.posts + [PostOf(batches[0], here)]
  {
    hide Changes, Settle, Postpone;
  }

  lemma {:induction false} Sends(
    box: Box, before: seq<Row>, batches: seq<seq<nat>>, world: nat -> Meanwhile, n: nat, now: real)
    ensures Send(box, before, batches, world, n, now) ==
      if batches == [] then box
      else
        var next := AfterOne(box, before, batches, world(n), now);
        if Settles(world(n)) then Send(next, before, batches[1..], world, n + 1, now) else next
  {
    hide AfterOne;
  }

  /** A pass posts its batches in order, as far as it gets. */
  lemma {:induction false} PostsInOrder(
    box: Box, before: seq<Row>, batches: seq<seq<nat>>, world: nat -> Meanwhile, n: nat, now: real)
    ensures InOrder(box.posts, Send(box, before, batches, world, n, now).posts, batches, world, n)
    decreases |batches|
  {
    hide Send, AfterOne, PostOf;
    Sends(box, before, batches, world, n, now);
    if batches == [] {
    } else {
      var next := AfterOne(box, before, batches, world(n), now);
      OnePost(box, before, batches, world(n), now);
      if Settles(world(n)) {
        PostsInOrder(next, before, batches[1..], world, n + 1, now);
        var posts := Send(next, before, batches[1..], world, n + 1, now).posts;
        OrderFollows(box.posts, next.posts, posts, batches, world, n);
      }
    }
  }

  lemma {:induction false} BatchOf(batches: seq<seq<nat>>, i: nat) returns (j: nat)
    requires i in Concat(batches)
    ensures j < |batches| && i in batches[j]
    decreases |batches|
  {
    j := 0;
    if i !in batches[0] {
      var k := BatchOf(batches[1..], i);
      j := k + 1;
    }
  }

  lemma {:induction false} FirstApart(batches: seq<seq<nat>>, i: nat)
    requires batches != [] && Distinct(Concat(batches)) && i in batches[0]
    ensures i !in Concat(batches[1..])
  {
    var ids, rest := Concat(batches), Concat(batches[1..]);
    var j :| 0 <= j < |batches[0]| && batches[0][j] == i;
    assert ids[j] == i;
    assert forall k | 0 <= k < |rest| :: ids[|batches[0]| + k] == rest[k];
  }

  lemma {:induction false} RestDistinct(batches: seq<seq<nat>>)
    requires batches != [] && Distinct(Concat(batches))
    ensures Distinct(Concat(batches[1..]))
  {
    var ids, rest := Concat(batches), Concat(batches[1..]);
    assert forall k | 0 <= k < |rest| :: ids[|batches[0]| + k] == rest[k];
  }

  /** A row is in one batch only. */
  lemma {:induction false} OneBatch(batches: seq<seq<nat>>, i: nat, j: nat, k: nat)
    requires Distinct(Concat(batches)) && j <= k < |batches| && i in batches[j] && i in batches[k]
    ensures j == k
    decreases |batches|
  {
    if j > 0 {
      RestDistinct(batches);
      OneBatch(batches[1..], i, j - 1, k - 1);
    } else if k > 0 {
      InConcat(batches[1..], k - 1, i);
      FirstApart(batches, i);
    }
  }

  ghost predicate PostedFrom(posts: seq<Post>, from: nat, i: nat) {
    exists k | from <= k < |posts| :: i in posts[k].ids
  }

  function BatchesOf(box: Box, discord: bool, now: real): seq<seq<nat>> {
    Batches(box.rows, DueNow(box.rows, now), discord)
  }

  lemma {:induction false} BatchesAreDue(box: Box, discord: bool, now: real)
    requires Inv(box)
    ensures Concat(BatchesOf(box, discord, now)) == DueNow(box.rows, now)
    ensures Distinct(Concat(BatchesOf(box, discord, now)))
  {
    BatchesPartition(box.rows, DueNow(box.rows, now), discord);
    TakenAreReady(box, now);
  }

  lemma {:induction false} NewAccepted(
    box: Box, batches: seq<seq<nat>>, world: nat -> Meanwhile, posts: seq<Post>, i: nat, j: nat, k: nat)
    requires !Delivered(box.posts, i) && Distinct(Concat(batches)) && j < |batches| && i in batches[j]
    requires k < |posts| && posts[k].answer.Accepted? && i in posts[k].recorded
    requires InOrder(box.posts, posts, batches, world, 0)
    ensures Reached(world, 0, j) && world(j).answer.Accepted? && i in Written(batches[j], world(j).died)
  {
    assert k >= |box.posts| by {
      assert forall l | 0 <= l < |box.posts| :: box.posts[l] == posts[..|box.posts|][l] == posts[l];
    }
    var m := k - |box.posts|;
    assert posts[|box.posts| + m] == PostOf(batches[m], world(0 + m));
    assert i in batches[m];
    if j <= m { OneBatch(batches, i, j, m); } else { OneBatch(batches, i, m, j); }
    ReachMeans(|batches|, world, 0, j);
  }

  lemma {:induction false} NewlyDelivered(
    box: Box, batches: seq<seq<nat>>, world: nat -> Meanwhile, posts: seq<Post>, i: nat, j: nat)
    requires !Delivered(box.posts, i) && Distinct(Concat(batches)) && j < |batches| && i in batches[j]
    requires InOrder(box.posts, posts, batches, world, 0)
    ensures Delivered(posts, i) <==>
      (Reached(world, 0, j) && world(j).answer.Accepted? && i in Written(batches[j], world(j).died))
  {
    if k :| 0 <= k < |posts| && posts[k].answer.Accepted? && i in posts[k].recorded {
      NewAccepted(box, batches, world, posts, i, j, k);
    }
    if Reached(world, 0, j) && world(j).answer.Accepted? && i in Written(batches[j], world(j).died) {
      ReachMeans(|batches|, world, 0, j);
      assert posts[|box.posts| + j] == PostOf(batches[j], world(0 + j));
    }
  }

  lemma {:induction false} DueIsUndelivered(box: Box, now: real, i: nat)
    requires Inv(box) && i in DueNow(box.rows, now)
    ensures i < |box.rows| && !Delivered(box.posts, i)
  {
    DueNowSelects(box.rows, now);
    assert RowOk(box.rows[i], box.posts, i);
  }

  lemma {:induction false} SentIsDelivered(box: Box, i: nat)
    requires Inv(box) && i < |box.rows|
    ensures box.rows[i].state == Sent <==> Delivered(box.posts, i)
  {
    assert RowOk(box.rows[i], box.posts, i);
  }

  /** Exactly which rows a pass sends, whatever is acknowledged or queued meanwhile: a row
      it has read ends as sent if and only if the pass reached its batch, the batch was
      accepted, and the process lived to write that row down. */
  lemma {:induction false} ReadIsSent(box: Box, discord: bool, world: nat -> Meanwhile, now: real, i: nat, j: nat)
    requires Inv(box) && j < |BatchesOf(box, discord, now)| && i in BatchesOf(box, discord, now)[j]
    ensures i < |box.rows| && i < |Pass(box, Usable(discord), world, now).rows|
    ensures
      var batch := BatchesOf(box, discord, now)[j];
      Pass(box, Usable(discord), world, now).rows[i].state == Sent <==>
        (Reached(world, 0, j) && world(j).answer.Accepted? && i in Written(batch, world(j).died))
  {
    hide Inv, Send, Batches, DueNow, InOrder, Reached, Written, Delivered;
    var batches := BatchesOf(box, discord, now);
    var after := Pass(box, Usable(discord), world, now);
    BatchesAreDue(box, discord, now);
    InConcat(batches, j, i);
    DueIsUndelivered(box, now, i);
    PassKeeps(box, Usable(discord), world, now);
    PassRows(box, discord, world, now, i);
    SentIsDelivered(after, i);
    PostsInOrder(box, box.rows, batches, world, 0, now);
    NewlyDelivered(box, batches, world, after.posts, i, j);
  }

  lemma {:induction false} PassRows(box: Box, discord: bool, world: nat -> Meanwhile, now: real, i: nat)
    requires Inv(box) && i < |box.rows|
    ensures i < |Pass(box, Usable(discord), world, now).rows|
  {
    SendRows(box, box.rows, BatchesOf(box, discord, now), world, 0, now);
  }

  lemma {:induction false} SendRows(
    box: Box, before: seq<Row>, batches: seq<seq<nat>>, world: nat -> Meanwhile, n: nat, now: real)
    ensures |box.rows| <= |Send(box, before, batches, world, n, now).rows|
    decreases |batches|
  {
    if batches == [] {
    } else {
      ChangesGrow(box.rows, world(n).changes);
      SendRows(AfterOne(box, before, batches, world(n), now), before, batches[1..], world, n + 1, now);
    }
  }

  // ---- rows that wait no more ---------------------------------------------------------------

  predicate Idle(rows: seq<Row>, i: nat) {
    i < |rows| && rows[i].state != Pending
  }

  /** A row that does not wait when a pass begins is not posted by it and stays as it is,
      and so for ever. An acknowledgement between two passes makes its alarm's rows such. */
  lemma {:induction false} SkippedIsNotSent(box: Box, inputs: seq<Input>, i: nat)
    requires Inv(box) && Idle(box.rows, i)
    ensures Inv(Exec(box, inputs)) && i < |Exec(box, inputs).rows|
    ensures Exec(box, inputs).rows[i].state == box.rows[i].state
    ensures |box.posts| <= |Exec(box, inputs).posts| && Exec(box, inputs).posts[..|box.posts|] == box.posts
    ensures !PostedFrom(Exec(box, inputs).posts, |box.posts|, i)
    decreases |inputs|
  {
    if inputs == [] {
    } else {
      var next := Apply(box, inputs[0]);
      if inputs[0].Meantime? {
        ChangedKeeps(box, inputs[0].change);
        assert Touched(box.rows[i], next.rows[i]);
      } else {
        PassKeeps(box, inputs[0].url, inputs[0].world, inputs[0].at);
        IdlePasses(box, inputs[0].url, inputs[0].world, inputs[0].at, i);
      }
      SkippedIsNotSent(next, inputs[1..], i);
      var posts := Exec(box, inputs).posts;
      assert posts[..|box.posts|] == posts[..|next.posts|][..|box.posts|];
      forall k | |box.posts| <= k < |posts| ensures i !in posts[k].ids {
        if k < |next.posts| { assert posts[k] == posts[..|next.posts|][k]; }
      }
    }
  }

  lemma {:induction false} OnlyTheirs(
    old_: seq<Post>, posts: seq<Post>, batches: seq<seq<nat>>, world: nat -> Meanwhile, i: nat)
    requires InOrder(old_, posts, batches, world, 0) && i !in Concat(batches)
    ensures |old_| <= |posts| && !PostedFrom(posts, |old_|, i)
  {
    forall k | |old_| <= k < |posts| ensures i !in posts[k].ids {
      var m := k - |old_|;
      assert posts[|old_| + m] == PostOf(batches[m], world(0 + m));
      if i in batches[m] { InConcat(batches, m, i); }
    }
  }

  lemma {:induction false} IdlePasses(box: Box, url: Url, world: nat -> Meanwhile, now: real, i: nat)
    requires Inv(box) && Idle(box.rows, i)
    ensures
      var after := Pass(box, url, world, now);
      && i < |after.rows| && after.rows[i].state == box.rows[i].state
      && |box.posts| <= |after.posts| && after.posts[..|box.posts|] == box.posts
      && !PostedFrom(after.posts, |box.posts|, i)
  {
    var ids := DueNow(box.rows, now);
    DueNowSelects(box.rows, now);
    assert i !in ids;
    if url.Usable? {
      hide Inv, Ready, Send, DueNow, Batches;
      var batches := BatchesOf(box, url.discord, now);
      BatchesAreDue(box, url.discord, now);
      TakenAreReady(box, now);
      OthersFollow(box, box.rows, batches, world, 0, now, i);
      PostsInOrder(box, box.rows, batches, world, 0, now);
      OnlyTheirs(box.posts, Pass(box, url, world, now).posts, batches, world, i);
    }
  }

  /** Once its alarm is acknowledged while no pass is under way, a row is never posted
      again, whatever follows. */
  lemma {:induction false} AcknowledgedBetweenPasses(box: Box, i: nat, at: real, later: seq<Input>)
    requires Inv(box) && i < |box.rows|
    ensures !PostedFrom(Exec(box, [Meantime(Acknowledge(box.rows[i].key, at))] + later).posts, |box.posts|, i)
  {
    var inputs := [Meantime(Acknowledge(box.rows[i].key, at))] + later;
    var next := Apply(box, inputs[0]);
    assert inputs[1..] == later;
    ChangedKeeps(box, inputs[0].change);
    SkippedIsNotSent(next, later, i);
  }

  // ---- acknowledging during a pass -------------------------------------------------------------

  lemma {:induction false} ChangesIdle(rows: seq<Row>, changes: seq<Change>, i: nat)
    requires i < |rows|
    ensures i < |Changes(rows, changes)| && Changes(rows, changes)[i].key == rows[i].key
    ensures rows[i].state != Pending || (exists at :: Acknowledge(rows[i].key, at) in changes)
      ==> Changes(rows, changes)[i].state != Pending
    decreases |changes|
  {
    if changes == [] {
    } else {
      var next := Changed(rows, changes[0]);
      assert next[i].key == rows[i].key;
      ChangesIdle(next, changes[1..], i);
      if at :| Acknowledge(rows[i].key, at) in changes {
        if changes[0] == Acknowledge(rows[i].key, at) {
          assert next[i].state != Pending;
        } else {
          assert Acknowledge(next[i].key, at) in changes[1..];
        }
      }
    }
  }

  lemma {:induction false} StepIdle(
    box: Box, before: seq<Row>, batches: seq<seq<nat>>, here: Meanwhile, now: real, i: nat)
    requires batches != [] && i < |box.rows|
    ensures
      var after := AfterOne(box, before, batches, here, now).rows;
      && i < |after| && after[i].key == box.rows[i].key
      && ((box.rows[i].state != Pending || (exists at :: Acknowledge(box.rows[i].key, at) in here.changes))
          ==> after[i].state != Pending)
  {
    ChangesIdle(box.rows, here.changes, i);
  }

  /** An acknowledgement made while post n of the pass is under way leaves none of its
      alarm's rows waiting. */
  lemma {:induction false} AcknowledgedInPass(
    box: Box, before: seq<Row>, batches: seq<seq<nat>>, world: nat -> Meanwhile, m: nat, now: real, n: nat, i: nat)
    requires i < |box.rows|
    requires box.rows[i].state != Pending
      || (m <= n < m + |batches| && Reached(world, m, n - m)
          && exists at :: Acknowledge(box.rows[i].key, at) in world(n).changes)
    ensures Idle(Send(box, before, batches, world, m, now).rows, i)
    decreases |batches|
  {
    hide Send, AfterOne;
    Sends(box, before, batches, world, m, now);
    if batches == [] {
    } else {
      StepIdle(box, before, batches, world(m), now, i);
      var next := AfterOne(box, before, batches, world(m), now);
      if Settles(world(m)) {
        AcknowledgedInPass(next, before, batches[1..], world, m + 1, now, n, i);
      } else {
        assert n > m && Reached(world, m, n - m) ==> Settles(world(m));
      }
    }
  }

  /** Exactly which rows are still posted after their alarm was acknowledged during a
      pass, while its post n was under way: over the rest of that pass and everything that
      follows, a row is posted again if and only if the pass had read it into a later
      batch and reaches that batch, with no rate limit and no death before it. */
  lemma {:induction false} AcknowledgedIsPostedExactly(
    box: Box, discord: bool, world: nat -> Meanwhile, now: real, n: nat, i: nat, at: real, later: seq<Input>)
    requires Inv(box) && i < |box.rows| && n < |BatchesOf(box, discord, now)| && Reached(world, 0, n)
    requires Acknowledge(box.rows[i].key, at) in world(n).changes
    ensures
      var batches := BatchesOf(box, discord, now);
      var after := Exec(Apply(box, Deliver(Usable(discord), world, now)), later);
      PostedFrom(after.posts, |box.posts| + n + 1, i) <==>
        (exists j | n < j < |batches| :: i in batches[j] && Reached(world, 0, j))
  {
    hide Inv, Exec, Send, PostOf, Batches, DueNow;
    var batches := BatchesOf(box, discord, now);
    var pass := Pass(box, Usable(discord), world, now);
    PassKeeps(box, Usable(discord), world, now);
    AcknowledgedInPass(box, box.rows, batches, world, 0, now, n, i);
    SkippedIsNotSent(pass, later, i);
    PostsInOrder(box, box.rows, batches, world, 0, now);
    LaterPosts(box, batches, world, pass.posts, Exec(pass, later).posts, n, i);
  }

  lemma {:induction false} LaterPosts(
    box: Box, batches: seq<seq<nat>>, world: nat -> Meanwhile, posts: seq<Post>, all: seq<Post>, n: nat, i: nat)
    requires InOrder(box.posts, posts, batches, world, 0)
    requires |posts| <= |all| && all[..|posts|] == posts && !PostedFrom(all, |posts|, i)
    ensures PostedFrom(all, |box.posts| + n + 1, i) <==>
      (exists j | n < j < |batches| :: i in batches[j] && Reached(world, 0, j))
  {
    if k :| |box.posts| + n + 1 <= k < |all| && i in all[k].ids {
      var j := k - |box.posts|;
      assert k < |posts| && all[k] == posts[|box.posts| + j] == PostOf(batches[j], world(0 + j));
      ReachMeans(|batches|, world, 0, j);
      assert i in batches[j] && Reached(world, 0, j);
    }
    if j :| n < j < |batches| && i in batches[j] && Reached(world, 0, j) {
      ReachMeans(|batches|, world, 0, j);
      assert all[|box.posts| + j] == posts[|box.posts| + j] == PostOf(batches[j], world(0 + j));
    }
  }
}
