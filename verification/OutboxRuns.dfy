/** Whole runs of the outbox: recording, delivery with retries, clearing,
    crashes and restarts, interleaved in any order. Every critical section of
    `JobEventSender` is one step, except that the durable commit and the cache
    update inside `record` and `reconcile` are two, so that a crash may fall
    between them. */
module OutboxRuns {
  import opened Basics
  import opened JobEvents

  /** What the lock holder has committed but not yet put in the cache. */
  datatype Pending = Idle | Publishing(runner: string, event: Event) | Clearing(stopped: set<string>)

  datatype Sender = Sender(
    rows: seq<Row>,
    currentJobs: map<string, Event>,
    jobs: map<string, Event>,
    pending: Pending,
    held: Option<Event>,          // the row the delivery thread has read
    accepted: bool,               // its post has been answered with success
    inserted: seq<Event>,         // every event ever stored, in order
    posts: seq<Attempt>)          // every post ever made, in order

  /** One post: what it carried, how many events had been marked delivered
      when it was made, and whether it was answered with success. */
  datatype Attempt = Attempt(event: Event, at: int, ok: bool)

  datatype Step =
    | Record(runner: string, event: Event, now: int)
    | Publish
    | ClearCommit(stopped: set<string>)
    | Fetch
    | Post(ok: bool)
    | Mark
    | Crash

  const EMPTY := Sender([], map[], map[], Idle, None, false, [], [])

  /** How many of the events ever stored are no longer waiting. */
  function Delivered(s: Sender): int {
    |s.inserted| - Count(s.rows, false)
  }

  function RecordStep(s: Sender, runner: string, event: Event, now: int): Sender {
    if s.pending != Idle || Verdict(s.rows, runner, event) != Stored then s
    else
      var shown := Displaces(Lookup(s.jobs, runner), event, now);
      s.(rows := Insert(s.rows, event),
         inserted := s.inserted + [event],
         currentJobs := if shown then s.currentJobs[runner := event] else s.currentJobs,
         pending := if shown then Publishing(runner, event) else Idle)
  }

  function Apply(s: Sender, step: Step): Sender {
    match step
    case Record(runner, event, now) => RecordStep(s, runner, event, now)
    case Publish =>
      (match s.pending
       case Idle => s
       case Publishing(runner, event) => s.(jobs := s.jobs[runner := event], pending := Idle)
       case Clearing(stopped) => s.(jobs := s.jobs - stopped, pending := Idle))
    case ClearCommit(stopped) =>
      if s.pending != Idle then s
      else s.(currentJobs := s.currentJobs - stopped, pending := Clearing(stopped))
    case Fetch =>
      if s.pending != Idle || s.held.Some? then s else s.(held := FirstUndelivered(s.rows))
    case Post(ok) =>
      if s.held.None? || s.accepted then s
      else s.(accepted := ok, held := if ok then s.held else None,
              posts := s.posts + [Attempt(s.held.value, Delivered(s), ok)])
    case Mark =>
      if s.pending != Idle || s.held.None? || !s.accepted then s
      else s.(rows := Prune(MarkDelivered(s.rows, s.held.value.id)), held := None, accepted := false)
    case Crash =>
      s.(jobs := s.currentJobs, pending := Idle, held := None, accepted := false)
  }

  function Exec(s: Sender, steps: seq<Step>): Sender
    decreases |steps|
  {
    if steps == [] then s else Exec(Apply(s, steps[0]), steps[1..])
  }

  /** Uninterrupted, the two steps of a record come to what `JobEventSender.Record`
      does under its lock. */
  lemma {:induction false} RecordUninterrupted(s: Sender, runner: string, event: Event, now: int)
    requires s.pending == Idle
    ensures
      var after := Exec(s, [Record(runner, event, now), Publish]);
      var stored := Verdict(s.rows, runner, event) == Stored;
      var shown := stored && Displaces(Lookup(s.jobs, runner), event, now);
      && after.rows == (if stored then Insert(s.rows, event) else s.rows)
      && after.currentJobs == (if shown then s.currentJobs[runner := event] else s.currentJobs)
      && after.jobs == (if shown then s.jobs[runner := event] else s.jobs)
  {
    var steps := [Record(runner, event, now), Publish];
    assert steps[1..] == [Publish] && [Publish][1..] == [];
    var one := Apply(s, steps[0]);
    assert Exec(one, [Publish]) == Exec(Apply(one, Publish), []);
  }

  /** A stored event becomes what its runner is doing, in table and cache, exactly when it
      has a job and a run id, is at most thirty seconds ahead of the clock, is not the
      start of the execution shown as finished, and there is no identified current job or
      that one is not later. */
  lemma {:induction false} CurrentExactly(s: Sender, runner: string, event: Event, now: int)
    requires s.pending == Idle && s.jobs == s.currentJobs && Verdict(s.rows, runner, event) == Stored
    ensures
      var after := Exec(s, [Record(runner, event, now), Publish]);
      && after.currentJobs == after.jobs
      && after.jobs == if BecomesCurrent(s.jobs, runner, event, now) then s.jobs[runner := event] else s.jobs
  {
    RecordUninterrupted(s, runner, event, now);
    DisplacesExactly(s.jobs, runner, event, now);
  }

  /** So a runner with nothing current is shown in the job of its first identified start,
      and no longer once its finish, not before it, is recorded. */
  lemma {:induction false} FirstStartIsShown(
    s: Sender, runner: string, start: Event, finish: Event, now: int, later: int, failed: set<string>)
    requires s.pending == Idle && s.jobs == s.currentJobs && runner !in s.jobs && runner !in failed
    requires start.state == Started && HasText(start.job) && HasText(start.runId) && start.at.utc <= now
    requires Verdict(s.rows, runner, start) == Stored
    ensures
      var started := Exec(s, [Record(runner, start, now), Publish]);
      && Doing(started.jobs, failed, runner, start.job.value)
      && (Verdict(started.rows, runner, finish) == Stored
          && finish == start.(id := finish.id, state := Finished, at := finish.at, result := finish.result)
          && start.at.utc <= finish.at.utc <= later ==>
            forall job :: !Doing(Exec(started, [Record(runner, finish, later), Publish]).jobs, failed, runner, job))
  {
    CurrentExactly(s, runner, start, now);
    var started := Exec(s, [Record(runner, start, now), Publish]);
    assert started.pending == Idle by { PublishedIsIdle(s, runner, start, now); }
    hide Exec, Verdict;
    if Verdict(started.rows, runner, finish) == Stored
       && finish == start.(id := finish.id, state := Finished, at := finish.at, result := finish.result)
       && start.at.utc <= finish.at.utc <= later {
      CurrentExactly(started, runner, finish, later);
    }
  }

  lemma {:induction false} PublishedIsIdle(s: Sender, runner: string, event: Event, now: int)
    requires s.pending == Idle
    ensures Exec(s, [Record(runner, event, now), Publish]).pending == Idle
  {
    var mid := Apply(s, Record(runner, event, now));
    assert [Record(runner, event, now), Publish][1..] == [Publish] && [Publish][1..] == [];
    assert Exec(s, [Record(runner, event, now), Publish]) == Exec(mid, [Publish]) == Exec(Apply(mid, Publish), []);
  }

  // ---- the table is a bounded queue -----------------------------------------

  /** The table, seen as the stored events from position `gone` on, those
      before position `done` marked delivered, rowids counting from one. */
  ghost predicate IsQueue(rows: seq<Row>, inserted: seq<Event>, gone: nat, done: nat) {
    && gone <= done <= |inserted|
    && |rows| == |inserted| - gone
    && (inserted != [] ==> gone < |inserted|)
    && forall i | 0 <= i < |rows| :: rows[i] == Row(gone + i + 1, inserted[gone + i], gone + i < done)
  }

  ghost predicate DistinctIds(rows: seq<Row>) {
    forall i, j | 0 <= i < j < |rows| :: rows[i].event.id != rows[j].event.id
  }

  lemma {:induction false} MaxRowidQueue(rows: seq<Row>, gone: nat)
    requires forall i | 0 <= i < |rows| :: rows[i].rowid == gone + i + 1
    ensures MaxRowid(rows) == if rows == [] then 0 else gone + |rows|
    decreases |rows|
  {
    if rows == [] {
    } else {
      MaxRowidQueue(rows[1..], gone + 1);
    }
  }

  lemma {:induction false} FirstUndeliveredQueue(rows: seq<Row>, done: nat)
    requires done <= |rows|
    requires forall i | 0 <= i < |rows| :: rows[i].delivered <==> i < done
    ensures FirstUndelivered(rows) == if done < |rows| then Some(rows[done].event) else None
    decreases |rows|
  {
    if rows != [] && done > 0 {
      FirstUndeliveredQueue(rows[1..], done - 1);
    }
  }

  /** Pruning a queue drops its oldest delivered rows and nothing else. */
  lemma {:induction false} PruneQueue(rows: seq<Row>, done: nat)
    requires done <= |rows|
    requires forall i | 0 <= i < |rows| :: rows[i].delivered <==> i < done
    ensures Prune(rows) == rows[Max(0, done - CAPACITY)..]
    decreases |rows|
  {
    if rows == [] {
    } else {
      var rest := rows[1..];
      var restDone := if done > 0 then done - 1 else 0;
      if done > 0 {
        PruneQueue(rest, restDone);
        CountPrefix(rest, restDone);
      } else {
        PruneNone(rows);
      }
    }
  }

  lemma {:induction false} PruneNone(rows: seq<Row>)
    requires forall i | 0 <= i < |rows| :: !rows[i].delivered
    ensures Prune(rows) == rows
    decreases |rows|
  {
    if rows == [] {
    } else {
      PruneNone(rows[1..]);
    }
  }

  lemma {:induction false} CountPrefix(rows: seq<Row>, done: nat)
    requires done <= |rows|
    requires forall i | 0 <= i < |rows| :: rows[i].delivered <==> i < done
    ensures Count(rows, true) == done && Count(rows, false) == |rows| - done
    decreases |rows|
  {
    if rows == [] {
    } else {
      CountPrefix(rows[1..], if done > 0 then done - 1 else 0);
    }
  }

  // ---- what every step keeps ------------------------------------------------

  /** Posts follow insertion order: each carries the event at its position, a
      failed one is followed only by the same position, an accepted one by the
      same (its success was lost in a crash) or the next. */
  ghost predicate InOrder(posts: seq<Attempt>, inserted: seq<Event>) {
    && (forall k | 0 <= k < |posts| :: 0 <= posts[k].at < |inserted| && posts[k].event == inserted[posts[k].at])
    && (posts != [] ==> posts[0].at == 0)
    && (forall j, k | 0 <= j < k < |posts| && k == j + 1 ::
          posts[k].at == posts[j].at || (posts[j].ok && posts[k].at == posts[j].at + 1))
  }

  /** The last post is of the first undelivered event, or of the one before it. */
  ghost predicate UpTo(posts: seq<Attempt>, done: int) {
    if posts == [] then done == 0
    else
      var last := posts[|posts| - 1];
      last.at == done || (last.ok && last.at + 1 == done)
  }

  ghost predicate Coherent(s: Sender) {
    s.currentJobs == (match s.pending
                      case Idle => s.jobs
                      case Publishing(runner, event) => s.jobs[runner := event]
                      case Clearing(stopped) => s.jobs - stopped)
  }

  ghost predicate AllIdentified(jobs: map<string, Event>) {
    forall rid | rid in jobs :: Identified(jobs[rid])
  }

  /** What is true of the events table between critical sections. */
  ghost predicate TableInv(rows: seq<Row>, inserted: seq<Event>) {
    var done := |inserted| - Count(rows, false);
    && |rows| <= |inserted| && 0 <= done
    && IsQueue(rows, inserted, |inserted| - |rows|, done)
    && Count(rows, true) <= CAPACITY && Count(rows, false) <= CAPACITY
    && DistinctIds(rows)
  }

  /** What is true of the delivery thread and of everything it has posted. */
  ghost predicate DeliveryInv(s: Sender) {
    var done := Delivered(s);
    && (s.held.Some? ==> 0 <= done < |s.inserted| && s.held.value == s.inserted[done])
    && InOrder(s.posts, s.inserted) && UpTo(s.posts, done)
    && (s.accepted ==> s.held.Some? && s.posts != []
                       && s.posts[|s.posts| - 1].at == done && s.posts[|s.posts| - 1].ok)
  }

  ghost predicate CacheInv(s: Sender) {
    Coherent(s) && AllIdentified(s.jobs) && AllIdentified(s.currentJobs)
  }

  ghost predicate Inv(s: Sender) {
    TableInv(s.rows, s.inserted) && DeliveryInv(s) && CacheInv(s)
  }

  lemma {:induction false} TableFromQueue(rows: seq<Row>, inserted: seq<Event>, gone: nat, done: nat)
    requires IsQueue(rows, inserted, gone, done) && DistinctIds(rows)
    requires done - gone <= CAPACITY && |inserted| - done <= CAPACITY
    ensures TableInv(rows, inserted) && Count(rows, false) == |inserted| - done
  {
    CountPrefix(rows, done - gone);
  }

  lemma {:induction false} InsertKeepsTable(rows: seq<Row>, inserted: seq<Event>, event: Event)
    requires TableInv(rows, inserted)
    requires FindEvent(rows, event.id).None? && Count(rows, false) < CAPACITY
    ensures TableInv(Insert(rows, event), inserted + [event])
    ensures Count(Insert(rows, event), false) == Count(rows, false) + 1
  {
    var gone, done := |inserted| - |rows|, |inserted| - Count(rows, false);
    CountPrefix(rows, done - gone);
    MaxRowidQueue(rows, gone);
    TableFromQueue(Insert(rows, event), inserted + [event], gone, done);
  }

  lemma {:induction false} MarkedShape(rows: seq<Row>, inserted: seq<Event>, gone: nat, done: nat)
    requires IsQueue(rows, inserted, gone, done) && DistinctIds(rows) && done < |inserted|
    ensures IsQueue(MarkDelivered(rows, inserted[done].id), inserted, gone, done + 1)
    ensures DistinctIds(MarkDelivered(rows, inserted[done].id))
  {
    assert rows[done - gone].event == inserted[done];
  }

  lemma {:induction false} SuffixShape(rows: seq<Row>, inserted: seq<Event>, gone: nat, done: nat, drop: nat)
    requires IsQueue(rows, inserted, gone, done) && DistinctIds(rows)
    requires gone + drop <= done && drop < |rows|
    ensures IsQueue(rows[drop..], inserted, gone + drop, done) && DistinctIds(rows[drop..])
  {
  }

  lemma {:induction false} MarkKeepsTable(rows: seq<Row>, inserted: seq<Event>, done: nat)
    requires TableInv(rows, inserted)
    requires done == |inserted| - Count(rows, false) && done < |inserted|
    ensures var rows' := Prune(MarkDelivered(rows, inserted[done].id));
            TableInv(rows', inserted) && Count(rows', false) == Count(rows, false) - 1
  {
    hide Prune, MarkDelivered, Count;
    var gone := |inserted| - |rows|;
    CountPrefix(rows, done - gone);
    MarkedShape(rows, inserted, gone, done);
    var marked := MarkDelivered(rows, inserted[done].id);
    PruneQueue(marked, done + 1 - gone);
    var drop := Max(0, done + 1 - gone - CAPACITY);
    SuffixShape(marked, inserted, gone, done + 1, drop);
    TableFromQueue(marked[drop..], inserted, gone + drop, done + 1);
  }

  lemma {:induction false} InOrderGrows(posts: seq<Attempt>, inserted: seq<Event>, event: Event)
    requires InOrder(posts, inserted)
    ensures InOrder(posts, inserted + [event])
  {
  }

  lemma {:induction false} ApplyKeepsTable(s: Sender, step: Step)
    requires TableInv(s.rows, s.inserted) && DeliveryInv(s)
    ensures var s' := Apply(s, step);
            && TableInv(s'.rows, s'.inserted)
            && Delivered(s') == Delivered(s)
               + if step.Mark? && s.pending == Idle && s.held.Some? && s.accepted then 1 else 0
  {
    hide TableInv, Prune, MarkDelivered, Insert, Displaces;
    if step.Record? {
      if s.pending == Idle && Verdict(s.rows, step.runner, step.event) == Stored {
        InsertKeepsTable(s.rows, s.inserted, step.event);
      }
    } else if step.Mark? {
      if s.pending == Idle && s.held.Some? && s.accepted {
        MarkKeepsTable(s.rows, s.inserted, Delivered(s));
      }
    } else {
      assert Apply(s, step).rows == s.rows && Apply(s, step).inserted == s.inserted;
    }
  }

  lemma {:induction false} FetchFindsCursor(rows: seq<Row>, inserted: seq<Event>)
    requires TableInv(rows, inserted)
    ensures var done := |inserted| - Count(rows, false);
            FirstUndelivered(rows) == if done < |inserted| then Some(inserted[done]) else None
  {
    var gone, done := |inserted| - |rows|, |inserted| - Count(rows, false);
    FirstUndeliveredQueue(rows, done - gone);
  }

  lemma {:induction false} PostKeepsOrder(posts: seq<Attempt>, inserted: seq<Event>, done: nat, ok: bool)
    requires InOrder(posts, inserted) && UpTo(posts, done) && done < |inserted|
    ensures var posts' := posts + [Attempt(inserted[done], done, ok)];
            InOrder(posts', inserted) && UpTo(posts', done)
  {
  }

  lemma {:induction false} RecordKeepsDelivery(s: Sender, step: Step)
    requires TableInv(s.rows, s.inserted) && DeliveryInv(s) && step.Record?
    ensures DeliveryInv(Apply(s, step))
  {
    ApplyKeepsTable(s, step);
    InOrderGrows(s.posts, s.inserted, step.event);
  }

  lemma {:induction false} MarkKeepsDelivery(s: Sender, step: Step)
    requires TableInv(s.rows, s.inserted) && DeliveryInv(s) && step.Mark?
    ensures DeliveryInv(Apply(s, step))
  {
    ApplyKeepsTable(s, step);
  }

  lemma {:induction false} PostKeepsDelivery(s: Sender, step: Step)
    requires TableInv(s.rows, s.inserted) && DeliveryInv(s) && step.Post?
    ensures DeliveryInv(Apply(s, step))
  {
    if s.held.Some? && !s.accepted {
      PostKeepsOrder(s.posts, s.inserted, Delivered(s), step.ok);
    }
  }

  lemma {:induction false} FetchKeepsDelivery(s: Sender, step: Step)
    requires TableInv(s.rows, s.inserted) && DeliveryInv(s) && step.Fetch?
    ensures DeliveryInv(Apply(s, step))
  {
    FetchFindsCursor(s.rows, s.inserted);
  }

  lemma {:induction false} SameQueueKeepsDelivery(s: Sender, s': Sender)
    requires DeliveryInv(s)
    requires s'.rows == s.rows && s'.inserted == s.inserted && s'.posts == s.posts
    requires (s'.held == s.held && s'.accepted == s.accepted) || (s'.held.None? && !s'.accepted)
    ensures DeliveryInv(s')
  {
  }

  lemma {:induction false} ApplyKeepsDelivery(s: Sender, step: Step)
    requires TableInv(s.rows, s.inserted) && DeliveryInv(s)
    ensures DeliveryInv(Apply(s, step))
  {
    if step.Record? { RecordKeepsDelivery(s, step); }
    else if step.Mark? { MarkKeepsDelivery(s, step); }
    else if step.Post? { PostKeepsDelivery(s, step); }
    else if step.Fetch? { FetchKeepsDelivery(s, step); }
    else { SameQueueKeepsDelivery(s, Apply(s, step)); }
  }

  lemma {:induction false} ApplyKeepsCache(s: Sender, step: Step)
    requires CacheInv(s)
    ensures CacheInv(Apply(s, step))
  {
  }

  lemma {:induction false} ApplyKeeps(s: Sender, step: Step)
    requires Inv(s)
    ensures Inv(Apply(s, step))
  {
    ApplyKeepsTable(s, step);
    ApplyKeepsDelivery(s, step);
    ApplyKeepsCache(s, step);
  }

  lemma {:induction false} ExecKeeps(s: Sender, steps: seq<Step>)
    requires Inv(s)
    ensures Inv(Exec(s, steps))
    decreases |steps|
  {
    if steps == [] {
    } else {
      ApplyKeeps(s, steps[0]);
      ExecKeeps(Apply(s, steps[0]), steps[1..]);
    }
  }

  // ---- main results ----------------------------------------------------------

  /** The outbox is a bounded first-in first-out queue in every run: rows are
      the stored events from some position on, in order, with increasing
      rowids; the delivered ones are exactly a prefix; posts follow insertion
      order; and neither part ever exceeds its bound. */
  lemma {:induction false} BoundedFifo(steps: seq<Step>) returns (gone: nat, done: nat)
    ensures var s := Exec(EMPTY, steps);
            && IsQueue(s.rows, s.inserted, gone, done)
            && done - gone <= 10000 && |s.inserted| - done <= 10000
            && DistinctIds(s.rows)
            && InOrder(s.posts, s.inserted) && UpTo(s.posts, done)
  {
    ExecKeeps(EMPTY, steps);
    var s := Exec(EMPTY, steps);
    gone, done := |s.inserted| - |s.rows|, Delivered(s);
    CountPrefix(s.rows, done - gone);
  }

  /** A retained event is refused or absorbed when it comes again, so the same
      identity never occupies two rows; a full outbox takes nothing. */
  lemma {:induction false} RecordRefusals(steps: seq<Step>, runner: string, event: Event)
    requires Valid(event, runner)
    ensures var s := Exec(EMPTY, steps);
            var verdict := Verdict(s.rows, runner, event);
            && (verdict == Duplicate <==> exists i | 0 <= i < |s.rows| :: s.rows[i].event == event)
            && (verdict == Conflict <==>
                  exists i | 0 <= i < |s.rows| :: s.rows[i].event.id == event.id && s.rows[i].event != event)
            && (verdict == Full <==>
                  Count(s.rows, false) == CAPACITY && forall i | 0 <= i < |s.rows| :: s.rows[i].event.id != event.id)
  {
    ExecKeeps(EMPTY, steps);
  }

  /** Outside the critical section the cache is the table, in every run;
      right after a crash and restart it is too. */
  lemma {:induction false} CacheIsTable(steps: seq<Step>)
    ensures var s := Exec(EMPTY, steps);
            (s.pending == Idle ==> s.jobs == s.currentJobs) && Apply(s, Crash).jobs == s.currentJobs
  {
    ExecKeeps(EMPTY, steps);
  }

  ghost predicate NeverCleared(steps: seq<Step>, runner: string) {
    forall i | 0 <= i < |steps| && steps[i].ClearCommit? :: runner !in steps[i].stopped
  }

  lemma {:induction false} RankTransitive(a: Rank, b: Rank, c: Rank)
    requires RankLe(a, b) && RankLe(b, c)
    ensures RankLe(a, c)
  {
  }

  /** What one step may do to a runner's durable current job. */
  lemma {:induction false} StepAdvances(s: Sender, step: Step, runner: string)
    requires Inv(s) && runner in s.currentJobs
    requires !(step.ClearCommit? && runner in step.stopped)
    ensures var s' := Apply(s, step);
            && runner in s'.currentJobs
            && RankLe(RankOf(s.currentJobs[runner]), RankOf(s'.currentJobs[runner]))
            && !(SameExecution(s'.currentJobs[runner], s.currentJobs[runner])
                 && s.currentJobs[runner].state == Finished && s'.currentJobs[runner].state == Started)
  {
  }

  /** Between clears a runner's rank never falls, whatever late, repeated or
      reordered events arrive and however often the agent crashes. */
  lemma {:induction false} RankNeverFalls(s: Sender, steps: seq<Step>, runner: string)
    requires Inv(s) && runner in s.currentJobs && NeverCleared(steps, runner)
    ensures var s' := Exec(s, steps);
            runner in s'.currentJobs && RankLe(RankOf(s.currentJobs[runner]), RankOf(s'.currentJobs[runner]))
    decreases |steps|
  {
    if steps == [] {
    } else {
      var next := Apply(s, steps[0]);
      ApplyKeeps(s, steps[0]);
      StepAdvances(s, steps[0], runner);
      RankNeverFalls(next, steps[1..], runner);
      RankTransitive(RankOf(s.currentJobs[runner]), RankOf(next.currentJobs[runner]),
                     RankOf(Exec(s, steps).currentJobs[runner]));
    }
  }
}
