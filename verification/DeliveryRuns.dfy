/** What holds of the alarm outbox over every run: any order of enqueues,
    acknowledgements and delivery passes, with changes made during a pass, rate
    limits, and the process dying between any two writes of a pass. */
module DeliveryRuns {
  import opened Basics
  import opened AlarmDelivery

  // ---- what the log says about one row ----------------------------------------------

  /** Posts of row `i` whose outcome was written down. */
  function Counted(posts: seq<Post>, i: nat): nat {
    if posts == [] then 0
    else Counted(posts[..|posts| - 1], i) + (if i in posts[|posts| - 1].recorded then 1 else 0)
  }

  /** Posts that carried row `i`, whatever came of them. */
  function Posted(posts: seq<Post>, i: nat): nat {
    if posts == [] then 0
    else Posted(posts[..|posts| - 1], i) + (if i in posts[|posts| - 1].ids then 1 else 0)
  }

  /** Posts of row `i` that the receiver answered with a rate limit. */
  function Throttled(posts: seq<Post>, i: nat): nat {
    if posts == [] then 0
    else
      var last := posts[|posts| - 1];
      Throttled(posts[..|posts| - 1], i) + (if i in last.ids && last.answer.Limited? then 1 else 0)
  }

  /** Posts the process died over before writing every row down. */
  function Deaths(posts: seq<Post>): nat {
    if posts == [] then 0
    else
      var last := posts[|posts| - 1];
      Deaths(posts[..|posts| - 1]) + (if last.recorded != last.ids && !last.answer.Limited? then 1 else 0)
  }

  /** An accepted post of row `i` was written down. */
  predicate Delivered(posts: seq<Post>, i: nat) {
    exists k | 0 <= k < |posts| :: posts[k].answer.Accepted? && i in posts[k].recorded
  }

  /** No post carries row `i` after one that was accepted and written down. */
  predicate NeverAgain(posts: seq<Post>, i: nat) {
    forall j, k | 0 <= j < k < |posts| ::
      posts[j].answer.Accepted? && i in posts[j].recorded ==> i !in posts[k].ids
  }

  // ---- the invariant --------------------------------------------------------------

  predicate RowOk(row: Row, posts: seq<Post>, i: nat) {
    && row.attempts == Counted(posts, i) <= MAX_ATTEMPTS
    && (row.state == Sent <==> Delivered(posts, i))
    && (row.attempts == MAX_ATTEMPTS ==> row.state == Sent || row.state == Failed)
    && (row.state == Failed ==> row.attempts == MAX_ATTEMPTS)
  }

  ghost predicate RowsOk(box: Box) {
    forall i: nat | i < |box.rows| :: RowOk(box.rows[i], box.posts, i)
  }

  ghost predicate LogOk(box: Box) {
    && (forall k, i | 0 <= k < |box.posts| && i in box.posts[k].ids :: i < |box.rows|)
    && (forall k, i | 0 <= k < |box.posts| && i in box.posts[k].recorded :: i < |box.rows|)
    && forall i: nat :: NeverAgain(box.posts, i)
  }

  ghost predicate Unique(rows: seq<Row>) {
    forall j, k | 0 <= j < k < |rows| ::
      !(rows[j].key == rows[k].key && rows[j].event == rows[k].event && rows[j].raisedAt == rows[k].raisedAt)
  }

  ghost predicate Inv(box: Box) {
    RowsOk(box) && LogOk(box) && Unique(box.rows)
  }

  // ---- changes from outside ---------------------------------------------------------

  predicate SameKey(old_: Row, new_: Row) {
    old_.key == new_.key && old_.event == new_.event && old_.raisedAt == new_.raisedAt && old_.isJob == new_.isJob
  }

  /** What an outside change can do to a row that exists: skip it while it waits. */
  predicate Touched(old_: Row, new_: Row) {
    && SameKey(old_, new_) && new_.attempts == old_.attempts && new_.nextAt == old_.nextAt
    && (new_.state == old_.state || (old_.state == Pending && new_.state == Skipped))
  }

  ghost predicate Follows(rows: seq<Row>, later: seq<Row>) {
    && |rows| <= |later|
    && forall i | 0 <= i < |rows| :: Touched(rows[i], later[i])
  }

  lemma {:induction false} NothingKnown(box: Box, i: nat)
    requires LogOk(box) && i >= |box.rows|
    ensures Counted(box.posts, i) == 0 && !Delivered(box.posts, i)
    decreases |box.posts|
  {
    if box.posts == [] {
    } else {
      var prefix := Box(box.rows, box.posts[..|box.posts| - 1]);
      forall j: nat ensures NeverAgain(prefix.posts, j) {
        assert NeverAgain(box.posts, j);
      }
      NothingKnown(prefix, i);
    }
  }

  lemma {:induction false} ChangedKeeps(box: Box, change: Change)
    requires Inv(box)
    ensures Inv(box.(rows := Changed(box.rows, change)))
    ensures Follows(box.rows, Changed(box.rows, change))
  {
    var next := box.(rows := Changed(box.rows, change));
    assert Follows(box.rows, next.rows);
    NothingKnown(box, |box.rows|);
    forall i: nat | i < |next.rows| ensures RowOk(next.rows[i], next.posts, i) {
      if i < |box.rows| {
        assert RowOk(box.rows[i], box.posts, i);
      }
    }
    UniqueChanged(box.rows, change);
  }

  lemma {:induction false} UniqueChanged(rows: seq<Row>, change: Change)
    requires Unique(rows)
    ensures Unique(Changed(rows, change))
  {
    var later := Changed(rows, change);
    forall j, k | 0 <= j < k < |later|
      ensures !(later[j].key == later[k].key && later[j].event == later[k].event
          && later[j].raisedAt == later[k].raisedAt)
    {
      if k < |rows| {
        assert SameKey(rows[j], later[j]) && SameKey(rows[k], later[k]);
      } else {
        assert change.Enqueue? && later[j] == rows[j];
      }
    }
  }

  lemma {:induction false} ChangesKeep(box: Box, changes: seq<Change>)
    requires Inv(box)
    ensures Inv(box.(rows := Changes(box.rows, changes)))
    ensures Follows(box.rows, Changes(box.rows, changes))
    decreases |changes|
  {
    if changes == [] {
    } else {
      ChangedKeeps(box, changes[0]);
      ChangesKeep(box.(rows := Changed(box.rows, changes[0])), changes[1..]);
    }
  }

  // ---- which rows a pass takes --------------------------------------------------------

  predicate IsDue(row: Row, now: real) {
    row.state == Pending && row.nextAt <= Stamp(now)
  }

  lemma {:induction false} DueSelects(rows: seq<Row>, now: int)
    ensures forall j, k | 0 <= j < k < |Due(rows, now)| :: Due(rows, now)[j] < Due(rows, now)[k]
    ensures forall i: nat | i < |rows| ::
      i in Due(rows, now) <==> rows[i].state == Pending && rows[i].nextAt <= now
    decreases |rows|
  {
    if rows == [] {
    } else {
      DueSelects(rows[..|rows| - 1], now);
    }
  }

  /** A pass takes waiting rows whose time has come, in id order, each once: all of
      them, or the hundred with the lowest ids. */
  lemma {:induction false} DueNowSelects(rows: seq<Row>, now: real)
    ensures |DueNow(rows, now)| <= PASS_LIMIT
    ensures forall j, k | 0 <= j < k < |DueNow(rows, now)| :: DueNow(rows, now)[j] < DueNow(rows, now)[k]
    ensures forall i | i in DueNow(rows, now) :: i < |rows| && IsDue(rows[i], now)
    ensures forall i: nat | i < |rows| && IsDue(rows[i], now) && i !in DueNow(rows, now) ::
      |DueNow(rows, now)| == PASS_LIMIT && forall j | j in DueNow(rows, now) :: j < i
  {
    DueSelects(rows, Stamp(now));
    var all := Due(rows, Stamp(now));
    var ids := DueNow(rows, now);
    forall i: nat | i < |rows| && IsDue(rows[i], now) && i !in ids
      ensures |ids| == PASS_LIMIT && forall j | j in ids :: j < i
    {
      assert i in all;
      var at :| 0 <= at < |all| && all[at] == i;
      assert at >= |ids|;
    }
  }

  // ---- one pass -------------------------------------------------------------------------

  ghost predicate Distinct(ids: seq<nat>) {
    forall j, k | 0 <= j < k < |ids| :: ids[j] != ids[k]
  }

  /** A row still to be posted in this pass: as it was read, but for being skipped. */
  predicate Untouched(rows: seq<Row>, before: seq<Row>, i: nat) {
    && i < |rows| && i < |before|
    && rows[i].attempts == before[i].attempts < MAX_ATTEMPTS
    && (rows[i].state == Pending || rows[i].state == Skipped)
  }

  ghost predicate Ready(rows: seq<Row>, before: seq<Row>, ids: seq<nat>) {
    Distinct(ids) && forall i | i in ids :: Untouched(rows, before, i)
  }

  lemma {:induction false} ReadyFollows(rows: seq<Row>, later: seq<Row>, before: seq<Row>, ids: seq<nat>)
    requires Ready(rows, before, ids) && Follows(rows, later)
    ensures Ready(later, before, ids)
  {
    forall i | i in ids ensures Untouched(later, before, i) {
      assert Untouched(rows, before, i) && Touched(rows[i], later[i]);
    }
  }

  lemma {:induction false} CountedGrows(posts: seq<Post>, post: Post, i: nat)
    ensures Counted(posts + [post], i) == Counted(posts, i) + (if i in post.recorded then 1 else 0)
    ensures Delivered(posts + [post], i) <==> Delivered(posts, i) || (post.answer.Accepted? && i in post.recorded)
  {
    assert (posts + [post])[..|posts|] == posts;
    if Delivered(posts, i) {
      var k :| 0 <= k < |posts| && posts[k].answer.Accepted? && i in posts[k].recorded;
      assert (posts + [post])[k] == posts[k];
    }
    if post.answer.Accepted? && i in post.recorded {
      assert (posts + [post])[|posts|] == post;
    }
  }

  lemma {:induction false} LogGrows(box: Box, post: Post)
    requires LogOk(box)
    requires forall i | i in post.ids :: i < |box.rows| && !Delivered(box.posts, i)
    requires post.recorded <= post.ids
    ensures LogOk(Box(box.rows, box.posts + [post]))
  {
    forall i: nat ensures NeverAgain(box.posts + [post], i) {
      assert NeverAgain(box.posts, i);
    }
    assert forall i | i in post.recorded :: i in post.ids;
  }

  /** Writing down the outcome of one post keeps every row's account. */
  lemma {:induction false} SettleKeeps(box: Box, before: seq<Row>, post: Post, now: real)
    requires Inv(box) && Ready(box.rows, before, post.ids)
    requires post.recorded <= post.ids && !post.answer.Limited?
    ensures Inv(Box(Settle(box.rows, before, post.recorded, post.answer, now), box.posts + [post]))
  {
    var next := Box(Settle(box.rows, before, post.recorded, post.answer, now), box.posts + [post]);
    forall i: nat | i < |next.rows| ensures RowOk(next.rows[i], next.posts, i) {
      CountedGrows(box.posts, post, i);
      assert RowOk(box.rows[i], box.posts, i);
      if i in post.recorded {
        assert i in post.ids;
        assert Untouched(box.rows, before, i);
      }
    }
    forall i | i in post.ids ensures i < |box.rows| && !Delivered(box.posts, i) {
      assert Untouched(box.rows, before, i) && RowOk(box.rows[i], box.posts, i);
    }
    LogGrows(box, post);
    assert LogOk(next);
    assert Unique(next.rows) by {
      forall i | 0 <= i < |box.rows| ensures SameKey(box.rows[i], next.rows[i]) {}
    }
  }

  lemma {:induction false} LimitKeeps(box: Box, later: seq<Row>, post: Post)
    requires Inv(box) && post.answer.Limited? && post.recorded == []
    requires |later| == |box.rows|
    requires forall i | 0 <= i < |later| ::
      SameKey(box.rows[i], later[i]) && later[i].attempts == box.rows[i].attempts && later[i].state == box.rows[i].state
    requires forall i | i in post.ids :: i < |box.rows| && !Delivered(box.posts, i)
    ensures Inv(Box(later, box.posts + [post]))
  {
    var next := Box(later, box.posts + [post]);
    forall i: nat | i < |next.rows| ensures RowOk(next.rows[i], next.posts, i) {
      CountedGrows(box.posts, post, i);
      assert RowOk(box.rows[i], box.posts, i);
    }
    LogGrows(box, post);
  }

  /** The rows left to post are not among those just written. */
  lemma {:induction false} RestIsReady(
    rows: seq<Row>, before: seq<Row>, batches: seq<seq<nat>>, answer: Answer, now: real)
    requires batches != [] && Ready(rows, before, Concat(batches))
    ensures Ready(rows, before, batches[0]) && Ready(rows, before, Concat(batches[1..]))
    ensures forall i | i in Concat(batches[1..]) :: i !in batches[0]
    ensures Ready(Settle(rows, before, batches[0], answer, now), before, Concat(batches[1..]))
  {
    var ids, rest := Concat(batches), Concat(batches[1..]);
    assert ids == batches[0] + rest;
    forall j, k | 0 <= j < k < |rest| ensures rest[j] != rest[k] {
      assert ids[|batches[0]| + j] == rest[j] && ids[|batches[0]| + k] == rest[k];
    }
    forall j, k | 0 <= j < k < |batches[0]| ensures batches[0][j] != batches[0][k] {
      assert ids[j] == batches[0][j] && ids[k] == batches[0][k];
    }
    forall i | i in rest ensures i !in batches[0] {
      var k :| 0 <= k < |rest| && rest[k] == i;
      assert ids[|batches[0]| + k] == i;
      assert forall j | 0 <= j < |batches[0]| :: ids[j] == batches[0][j] != i;
    }
    forall i | i in batches[0] ensures Untouched(rows, before, i) { assert i in ids; }
    forall i | i in rest ensures Untouched(rows, before, i) { assert i in ids; }
  }

  lemma {:induction false} SendKeeps(
    box: Box, before: seq<Row>, batches: seq<seq<nat>>, world: nat -> Meanwhile, n: nat, now: real)
    requires Inv(box) && Ready(box.rows, before, Concat(batches))
    ensures Inv(Send(box, before, batches, world, n, now))
    decreases |batches|
  {
    if batches == [] {
    } else {
      var here := world(n);
      ChangesKeep(box, here.changes);
      var met := box.(rows := Changes(box.rows, here.changes));
      ReadyFollows(box.rows, met.rows, before, Concat(batches));
      RestIsReady(met.rows, before, batches, here.answer, now);
      if here.answer.Limited? {
        forall i | i in batches[0] ensures i < |met.rows| && !Delivered(met.posts, i) {
          assert Untouched(met.rows, before, i) && RowOk(met.rows[i], met.posts, i);
        }
        LimitKeeps(met, Send(box, before, batches, world, n, now).rows, Post(batches[0], here.answer, []));
      } else {
        var written := Written(batches[0], here.died);
        SettleKeeps(met, before, Post(batches[0], here.answer, written), now);
        if here.died.None? {
          var next := Box(
            Settle(met.rows, before, written, here.answer, now), box.posts + [Post(batches[0], here.answer, written)]);
          SendKeeps(next, before, batches[1..], world, n + 1, now);
        }
      }
    }
  }

  lemma {:induction false} TakenAreReady(box: Box, now: real)
    requires Inv(box)
    ensures Ready(box.rows, box.rows, DueNow(box.rows, now))
  {
    DueNowSelects(box.rows, now);
    forall i | i in DueNow(box.rows, now) ensures Untouched(box.rows, box.rows, i) {
      assert RowOk(box.rows[i], box.posts, i);
    }
  }

  lemma {:induction false} SkipKeeps(box: Box, why: Option<string>, now: real)
    requires Inv(box)
    ensures Inv(box.(rows := Skip(box.rows, DueNow(box.rows, now), why, now)))
  {
    var ids := DueNow(box.rows, now);
    var next := box.(rows := Skip(box.rows, ids, why, now));
    TakenAreReady(box, now);
    forall i: nat | i < |next.rows| ensures RowOk(next.rows[i], next.posts, i) {
      assert RowOk(box.rows[i], box.posts, i);
      if i in ids { assert Untouched(box.rows, box.rows, i); }
    }
    assert forall i | 0 <= i < |box.rows| :: SameKey(box.rows[i], next.rows[i]);
  }

  lemma {:induction false} PassKeeps(box: Box, url: Url, world: nat -> Meanwhile, now: real)
    requires Inv(box)
    ensures Inv(Pass(box, url, world, now))
  {
    if url.Usable? {
      var ids := DueNow(box.rows, now);
      BatchesPartition(box.rows, ids, url.discord);
      TakenAreReady(box, now);
      SendKeeps(box, box.rows, Batches(box.rows, ids, url.discord), world, 0, now);
    } else if url.Unset? {
      SkipKeeps(box, None, now);
    } else {
      SkipKeeps(box, Some(BAD_URL), now);
    }
  }

  lemma {:induction false} RunKeeps(box: Box, inputs: seq<Input>)
    requires Inv(box)
    ensures Inv(Exec(box, inputs))
    decreases |inputs|
  {
    if inputs == [] {
    } else {
      if inputs[0].Meantime? {
        ChangedKeeps(box, inputs[0].change);
      } else {
        PassKeeps(box, inputs[0].url, inputs[0].world, inputs[0].at);
      }
      RunKeeps(Apply(box, inputs[0]), inputs[1..]);
    }
  }

  // ---- the main results ---------------------------------------------------------------

  lemma {:induction false} PostsAreCounted(posts: seq<Post>, i: nat)
    ensures Posted(posts, i) <= Counted(posts, i) + Deaths(posts) + Throttled(posts, i)
    decreases |posts|
  {
    if posts == [] {
    } else {
      PostsAreCounted(posts[..|posts| - 1], i);
    }
  }

  /** Over every run, each alarm event has one row; a row consumes at most eight
      attempts and is given up at exactly the eighth; it is sent once and never
      posted again; and it is posted at most eight times, plus once for each time
      the process died between a post and its record, plus once for each time its
      post was answered with a rate limit. */
  lemma {:induction false} DeliveryIsBounded(inputs: seq<Input>, i: nat)
    requires i < |Exec(EMPTY, inputs).rows|
    ensures Unique(Exec(EMPTY, inputs).rows)
    ensures
      var row, posts := Exec(EMPTY, inputs).rows[i], Exec(EMPTY, inputs).posts;
      && row.attempts == Counted(posts, i) <= MAX_ATTEMPTS
      && (row.state == Failed <==> row.attempts == MAX_ATTEMPTS && !Delivered(posts, i))
      && (row.state == Sent <==> Delivered(posts, i))
      && NeverAgain(posts, i)
      && Posted(posts, i) <= MAX_ATTEMPTS + Deaths(posts) + Throttled(posts, i)
  {
    RunKeeps(EMPTY, inputs);
    var box := Exec(EMPTY, inputs);
    assert RowOk(box.rows[i], box.posts, i);
    PostsAreCounted(box.posts, i);
  }

  lemma {:induction false} DeathsOfPass(
    box: Box, before: seq<Row>, batches: seq<seq<nat>>, world: nat -> Meanwhile, n: nat, now: real)
    ensures Deaths(Send(box, before, batches, world, n, now).posts) <= Deaths(box.posts) + 1
    ensures (forall k: nat :: world(k).died.None?) ==>
        Deaths(Send(box, before, batches, world, n, now).posts) == Deaths(box.posts)
    decreases |batches|
  {
    if batches == [] {
    } else {
      var here := world(n);
      var rows := Changes(box.rows, here.changes);
      var post := Post(batches[0], here.answer, if here.answer.Limited? then [] else Written(batches[0], here.died));
      assert (box.posts + [post])[..|box.posts|] == box.posts;
      if here.died.None? && !here.answer.Limited? {
        DeathsOfPass(Box(Settle(rows, before, post.recorded, here.answer, now), box.posts + [post]), before,
            batches[1..], world, n + 1, now);
      }
    }
  }

  // ---- what one pass does to each row it takes ------------------------------------------

  /** What an answer means for a row read as `before`. Meanwhile it may have been
      acknowledged, which shows only where the answer leaves it waiting. */
  predicate Outcome(before: Row, after: Row, answer: Answer, now: real) {
    match answer
    case Accepted => after.state == Sent && after.attempts == before.attempts + 1
    case Refused(_) =>
      && after.attempts == before.attempts + 1
      && if after.attempts == MAX_ATTEMPTS then after.state == Failed
         else Waiting(after) && after.nextAt == Stamp(now + Backoff(after.attempts) as real)
    case Limited(wait, _) => Waiting(after) && after.attempts == before.attempts && after.nextAt == Stamp(now + wait)
  }

  predicate Waiting(row: Row) {
    row.state == Pending || row.state == Skipped
  }

  lemma {:induction false} OutcomeFollows(before: Row, row: Row, later: Row, answer: Answer, now: real)
    requires Outcome(before, row, answer, now) && Touched(row, later)
    ensures Outcome(before, later, answer, now)
  {
  }

  lemma {:induction false} FollowsOn(rows: seq<Row>, mid: seq<Row>, later: seq<Row>, i: nat)
    requires i < |rows| && i < |mid| && i < |later| && Touched(rows[i], mid[i]) && Touched(mid[i], later[i])
    ensures Touched(rows[i], later[i])
  {
  }

  /** The box after a post the process lived through. */
  function AfterPost(box: Box, before: seq<Row>, batch: seq<nat>, here: Meanwhile, now: real): Box {
    Box(Settle(Changes(box.rows, here.changes), before, batch, here.answer, now),
        box.posts + [Post(batch, here.answer, batch)])
  }

  lemma {:induction false} NextIsReady(box: Box, before: seq<Row>, batches: seq<seq<nat>>, here: Meanwhile, now: real)
    requires batches != [] && Inv(box) && Ready(box.rows, before, Concat(batches)) && !here.answer.Limited?
    ensures
      var next := AfterPost(box, before, batches[0], here, now);
      Inv(next) && Ready(next.rows, before, Concat(batches[1..])) && |box.rows| <= |next.rows|
  {
    ChangesKeep(box, here.changes);
    var met := box.(rows := Changes(box.rows, here.changes));
    ReadyFollows(box.rows, met.rows, before, Concat(batches));
    RestIsReady(met.rows, before, batches, here.answer, now);
    SettleKeeps(met, before, Post(batches[0], here.answer, batches[0]), now);
  }

  lemma {:induction false} SendOn(
    box: Box, before: seq<Row>, batches: seq<seq<nat>>, world: nat -> Meanwhile, n: nat, now: real)
    requires batches != [] && !world(n).answer.Limited? && world(n).died.None?
    ensures Send(box, before, batches, world, n, now)
         == Send(AfterPost(box, before, batches[0], world(n), now), before, batches[1..], world, n + 1, now)
  {
  }

  /** What a post does to each of its rows, and to a row of any other batch. */
  lemma {:induction false} PostOutcome(
    box: Box, before: seq<Row>, batches: seq<seq<nat>>, here: Meanwhile, now: real, i: nat)
    requires batches != [] && Inv(box) && Ready(box.rows, before, Concat(batches)) && !here.answer.Limited?
    ensures i in batches[0] ==>
      var next := AfterPost(box, before, batches[0], here, now);
      && i < |before| && i < |next.rows| && i !in Concat(batches[1..])
      && Outcome(before[i], next.rows[i], here.answer, now)
    ensures i < |box.rows| && i !in batches[0] ==>
      var next := AfterPost(box, before, batches[0], here, now);
      i < |next.rows| && Touched(box.rows[i], next.rows[i])
  {
    ChangesKeep(box, here.changes);
    var met := box.(rows := Changes(box.rows, here.changes));
    ReadyFollows(box.rows, met.rows, before, Concat(batches));
    RestIsReady(met.rows, before, batches, here.answer, now);
    if i in batches[0] { assert Untouched(met.rows, before, i); }
  }

  /** A pass leaves the rows it does not take to everyone else. */
  lemma {:induction false} OthersFollow(
    box: Box, before: seq<Row>, batches: seq<seq<nat>>, world: nat -> Meanwhile, n: nat, now: real, i: nat)
    requires Inv(box) && Ready(box.rows, before, Concat(batches))
    requires i < |box.rows| && i !in Concat(batches)
    ensures i < |Send(box, before, batches, world, n, now).rows|
    ensures Touched(box.rows[i], Send(box, before, batches, world, n, now).rows[i])
    decreases |batches|
  {
    if batches == [] {
    } else {
      var here := world(n);
      if !here.answer.Limited? && here.died.None? {
        var next := AfterPost(box, before, batches[0], here, now);
        NextIsReady(box, before, batches, here, now);
        SendOn(box, before, batches, world, n, now);
        PostOutcome(box, before, batches, here, now, i);
        OthersFollow(next, before, batches[1..], world, n + 1, now, i);
        FollowsOn(box.rows, next.rows, Send(next, before, batches[1..], world, n + 1, now).rows, i);
      } else {
        ChangesKeep(box, here.changes);
        assert forall k | k in Written(batches[0], here.died) :: k in batches[0];
      }
    }
  }

  lemma {:induction false} FirstOutcome(
    box: Box, before: seq<Row>, batches: seq<seq<nat>>, world: nat -> Meanwhile, n: nat, now: real, i: nat)
    requires batches != [] && Inv(box) && Ready(box.rows, before, Concat(batches)) && i in batches[0]
    requires !world(n).answer.Limited? && world(n).died.None?
    ensures i < |before| && i < |Send(box, before, batches, world, n, now).rows|
    ensures Outcome(before[i], Send(box, before, batches, world, n, now).rows[i], world(n).answer, now)
  {
    var next := AfterPost(box, before, batches[0], world(n), now);
    NextIsReady(box, before, batches, world(n), now);
    SendOn(box, before, batches, world, n, now);
    PostOutcome(box, before, batches, world(n), now, i);
    OthersFollow(next, before, batches[1..], world, n + 1, now, i);
    OutcomeFollows(before[i], next.rows[i], Send(next, before, batches[1..], world, n + 1, now).rows[i],
        world(n).answer, now);
  }

  lemma {:induction false} DeferredOutcome(
    box: Box, before: seq<Row>, batches: seq<seq<nat>>, world: nat -> Meanwhile, n: nat, now: real, j: nat, i: nat)
    requires Inv(box) && Ready(box.rows, before, Concat(batches)) && j < |batches| && i in batches[j]
    requires world(n).answer.Limited? && world(n).died.None?
    ensures i < |before| && i < |Send(box, before, batches, world, n, now).rows|
    ensures Outcome(before[i], Send(box, before, batches, world, n, now).rows[i], world(n).answer, now)
  {
    ChangesKeep(box, world(n).changes);
    InConcat(batches, j, i);
    ReadyFollows(box.rows, Changes(box.rows, world(n).changes), before, Concat(batches));
    assert Untouched(Changes(box.rows, world(n).changes), before, i);
  }

  /** A post whose process lives and which is not rate-limited. */
  predicate Settles(here: Meanwhile) {
    !here.answer.Limited? && here.died.None?
  }

  lemma {:induction false} NextOutcome(
    box: Box, before: seq<Row>, batches: seq<seq<nat>>, world: nat -> Meanwhile, n: nat, now: real)
    returns (next: Box)
    requires batches != [] && Inv(box) && Ready(box.rows, before, Concat(batches)) && Settles(world(n))
    ensures Inv(next) && Ready(next.rows, before, Concat(batches[1..]))
    ensures Send(box, before, batches, world, n, now) == Send(next, before, batches[1..], world, n + 1, now)
  {
    next := AfterPost(box, before, batches[0], world(n), now);
    NextIsReady(box, before, batches, world(n), now);
    SendOn(box, before, batches, world, n, now);
  }

  /** After m settled posts the pass is where it would be, had it begun there. */
  lemma {:induction false} Advance(
    box: Box, before: seq<Row>, batches: seq<seq<nat>>, world: nat -> Meanwhile, n: nat, now: real, m: nat)
    returns (there: Box)
    requires Inv(box) && Ready(box.rows, before, Concat(batches))
    requires m <= |batches| && forall k | n <= k < n + m :: Settles(world(k))
    ensures Inv(there) && Ready(there.rows, before, Concat(batches[m..]))
    ensures Send(box, before, batches, world, n, now) == Send(there, before, batches[m..], world, n + m, now)
    decreases m
  {
    hide Inv, Ready, Send;
    if m == 0 {
      there := box;
      assert batches[0..] == batches;
    } else {
      var next := NextOutcome(box, before, batches, world, n, now);
      there := Advance(next, before, batches[1..], world, n + 1, now, m - 1);
      assert batches[1..][m - 1..] == batches[m..];
    }
  }

  /** In a pass the process lives through, the answers settle their batches until a
      rate limit at `limit` (or past the last batch). Every row of every batch then
      stands as the answer that governs it says: its own, or the rate limit. So the
      batches from the limit on have used no attempt and wait as long as they were
      told to. */
  lemma {:induction false} PassOutcomes(
    box: Box, before: seq<Row>, batches: seq<seq<nat>>, world: nat -> Meanwhile, now: real, limit: nat, j: nat, i: nat)
    requires Inv(box) && Ready(box.rows, before, Concat(batches))
    requires limit <= |batches| && forall k | 0 <= k < limit :: Settles(world(k))
    requires limit < |batches| ==> world(limit).answer.Limited? && world(limit).died.None?
    requires j < |batches| && i in batches[j]
    ensures
      var rows := Send(box, before, batches, world, 0, now).rows;
      && i < |before| && i < |rows|
      && Outcome(before[i], rows[i], world(if j < limit then j else limit).answer, now)
  {
    hide Inv, Ready, Send;
    var m := if j < limit then j else limit;
    var there := Advance(box, before, batches, world, 0, now, m);
    assert batches[m..][j - m] == batches[j];
    if j < limit {
      FirstOutcome(there, before, batches[m..], world, m, now, i);
    } else {
      DeferredOutcome(there, before, batches[m..], world, m, now, j - m, i);
    }
  }
}
