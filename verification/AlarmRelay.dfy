/** The alarm book, the calls that have yet to tell what they committed, the outbox and
    its deliverer as one machine (dashboard/alarms.py `_begin`, `_flush`, `acknowledge`;
    dashboard/alarm_notify.py `enqueue`, `deliver_due`). An observation commits under the
    book's lock, lets go of it, and then tells its events one by one on its own thread,
    while others observe, acknowledge and deliver; the process may die at any point. */
module AlarmRelay {
  import opened Basics
  import opened AlarmDelivery
  import opened DeliveryRuns
  import opened AcknowledgedRows
  import Alarms
  import Book = AlarmBook

  /** The one delivery thread: without a pass, between two posts of one, or with the
      first of the batches left under way. `before` is what the pass read. */
  datatype Delivery =
    | NoPass
    | Between(before: seq<Row>, left: seq<seq<nat>>, at: real)
    | Posting(before: seq<Row>, left: seq<seq<nat>>, at: real)

  datatype System = System(
    book: map<Alarms.Key, Alarms.Row>,
    calls: map<nat, seq<Book.Told>>,   // past their commit, with what they have yet to tell
    box: Box,
    delivery: Delivery,
    sent: seq<seq<nat>>)               // the rows of every post ever begun, in order

  /** `wanted` says that the notice's row is asked for and its insert works; a listener
      that fails loses the notice as a runner's does that Settings turn off. */
  datatype Step =
    | Commit(call: nat, input: Alarms.Input, book: map<Alarms.Key, Alarms.Row>, told: seq<Book.Told>)
    | Tell(call: nat, wanted: bool)
    | Notice(name: string, event: string, raisedAt: Option<int>, at: real)
    | Begin(url: Url, at: real)
    | Request
    | Answered(answer: Answer, died: Option<nat>)
    | Die

  const START := System(map[], map[], EMPTY, NoPass, [])

  // ---- steps ------------------------------------------------------------------------

  /** The call is new, and `book` and `told` are what its observation makes. */
  ghost predicate Commits(s: System, step: Step) {
    step.Commit? && step.call !in s.calls && Book.Stepped(s.book, step.book, step.told, step.input)
  }

  /** ... and it is an acknowledgement of an alarm the book has. */
  predicate Acks(s: System, step: Step) {
    step.Commit? && step.input.Acknowledge? && step.input.key in s.book
  }

  ghost function CommitStep(s: System, step: Step): System
    requires step.Commit?
  {
    if !Commits(s, step) then s
    else
      s.(book := step.book,
         calls := if step.told == [] then s.calls else s.calls[step.call := step.told],
         box := if Acks(s, step)
                then s.box.(rows := Acknowledged(s.box.rows, Alarm(step.input.key), step.input.now)) else s.box)
  }

  function EventName(event: Alarms.Event): string {
    match event
    case Raised(_, _, _) => "raised"
    case Resolved(_, _, _, _) => "resolved"
    case Acknowledged(_, _, _) => "acknowledged"
  }

  function RaisedAt(event: Alarms.Event): Option<int> {
    match event
    case Raised(_, _, at) => Some(at)
    case Resolved(_, _, raisedAt, _) => Some(raisedAt)
    case Acknowledged(_, _, _) => None
  }

  function HappenedAt(event: Alarms.Event): int {
    if event.Acknowledged? then 0 else event.at
  }

  predicate Telling(s: System, call: nat) {
    call in s.calls && s.calls[call] != []
  }

  function Enqueueing(told: Book.Told, wanted: bool): Change {
    Change.Enqueue(
      Alarm(told.key), EventName(told.event), RaisedAt(told.event), false, wanted, HappenedAt(told.event) as real)
  }

  /** A call tells its next event. */
  function TellStep(s: System, call: nat, wanted: bool): System {
    if !Telling(s, call) then s
    else
      var told := s.calls[call];
      s.(calls := if |told| == 1 then s.calls - {call} else s.calls[call := told[1..]],
         box := s.box.(rows := Changed(s.box.rows, Enqueueing(told[0], wanted))))
  }

  function BeginStep(s: System, url: Url, at: real): System {
    if s.delivery != NoPass then s
    else if url.Usable? then
      var left := BatchesOf(s.box, url.discord, at);
      if left == [] then s else s.(delivery := Between(s.box.rows, left, at))
    else s.(box := Pass(s.box, url, n => Meanwhile([], Accepted, None), at))
  }

  predicate Requests(s: System, step: Step) {
    step.Request? && s.delivery.Between? && s.delivery.left != []
  }

  function RequestStep(s: System): System {
    if !s.delivery.Between? || s.delivery.left == [] then s
    else
      s.(delivery := Posting(s.delivery.before, s.delivery.left, s.delivery.at),
         sent := s.sent + [s.delivery.left[0]])
  }

  /** The post is answered and written down, as far as the process lives. */
  function AnswerStep(s: System, answer: Answer, died: Option<nat>): System {
    if !s.delivery.Posting? || s.delivery.left == [] then s
    else
      var before, left, at := s.delivery.before, s.delivery.left, s.delivery.at;
      var box := AfterOne(s.box, before, left, Meanwhile([], answer, died), at);
      if died.Some? then s.(calls := map[], box := box, delivery := NoPass)
      else if answer.Limited? || |left| == 1 then s.(box := box, delivery := NoPass)
      else s.(box := box, delivery := Between(before, left[1..], at))
  }

  function DieStep(s: System): System {
    if s.delivery.Posting? && s.delivery.left != [] then AnswerStep(s, Accepted, Some(0))
    else s.(calls := map[], delivery := NoPass)
  }

  ghost function Next(s: System, step: Step): System {
    match step
    case Commit(_, _, _, _) => CommitStep(s, step)
    case Tell(call, wanted) => TellStep(s, call, wanted)
    case Notice(name, event, raisedAt, at) =>
      s.(box := s.box.(rows := Enqueued(s.box.rows, JobRun(name), event, raisedAt, true, true, at)))
    case Begin(url, at) => BeginStep(s, url, at)
    case Request => RequestStep(s)
    case Answered(answer, died) => AnswerStep(s, answer, died)
    case Die => DieStep(s)
  }

  ghost function After(s: System, steps: seq<Step>): System
    decreases |steps|
  {
    if steps == [] then s else After(Next(s, steps[0]), steps[1..])
  }

  // ---- what every step keeps ----------------------------------------------------------

  /** Every row still to be posted is as the pass read it, but for being skipped. */
  ghost predicate PassOk(s: System) {
    s.delivery != NoPass ==> s.delivery.left != [] && Ready(s.box.rows, s.delivery.before, Concat(s.delivery.left))
  }

  /** The posts begun are the posts of the outbox's log, and the one under way. */
  ghost predicate SentOk(s: System) {
    && |s.sent| == |s.box.posts| + (if s.delivery.Posting? then 1 else 0)
    && (forall k | 0 <= k < |s.box.posts| :: s.box.posts[k].ids == s.sent[k])
    && (s.delivery.Posting? && s.delivery.left != [] ==> s.sent[|s.sent| - 1] == s.delivery.left[0])
  }

  ghost predicate BookOk(s: System) {
    forall key | key in s.book :: Alarms.KindFits(key, Some(s.book[key]))
  }

  ghost predicate RelayInv(s: System) {
    Inv(s.box) && PassOk(s) && SentOk(s) && BookOk(s)
  }

  lemma {:induction false} ChangeKeeps(s: System, later: System, change: Change)
    requires Inv(s.box) && PassOk(s) && SentOk(s)
    requires later.delivery == s.delivery && later.sent == s.sent
    requires later.box == s.box.(rows := Changed(s.box.rows, change))
    ensures Inv(later.box) && PassOk(later) && SentOk(later)
  {
    hide Inv, Ready, Follows, Changed;
    ChangedKeeps(s.box, change);
    if s.delivery != NoPass {
      ReadyFollows(s.box.rows, later.box.rows, s.delivery.before, Concat(s.delivery.left));
    }
  }

  lemma {:induction false} CommitKeeps(s: System, step: Step)
    requires RelayInv(s) && step.Commit?
    ensures RelayInv(Next(s, step))
  {
    hide Inv, Ready, Changes;
    var later := Next(s, step);
    if Commits(s, step) {
      if Acks(s, step) {
        ChangeKeeps(s, later, Change.Acknowledge(Alarm(step.input.key), step.input.now));
      }
      Book.SteppedFits(s.book, step.book, step.told, step.input);
    }
  }

  lemma {:induction false} TellKeeps(s: System, step: Step)
    requires RelayInv(s) && (step.Tell? || step.Notice?)
    ensures RelayInv(Next(s, step))
  {
    hide Inv, Ready;
    var later := Next(s, step);
    if step.Notice? {
      ChangeKeeps(s, later, Change.Enqueue(JobRun(step.name), step.event, step.raisedAt, true, true, step.at));
    } else if Telling(s, step.call) {
      ChangeKeeps(s, later, Enqueueing(s.calls[step.call][0], step.wanted));
    }
  }

  lemma {:induction false} BeginKeeps(s: System, url: Url, at: real)
    requires RelayInv(s)
    ensures RelayInv(BeginStep(s, url, at))
  {
    hide Inv, Ready, Batches, DueNow;
    if s.delivery == NoPass {
      if url.Usable? {
        TakenAreReady(s.box, at);
        BatchesAreDue(s.box, url.discord, at);
      } else {
        PassKeeps(s.box, url, n => Meanwhile([], Accepted, None), at);
      }
    }
  }

  lemma {:induction false} RequestKeeps(s: System)
    requires RelayInv(s)
    ensures RelayInv(RequestStep(s))
  {
    hide Inv, Ready;
  }

  /** A post that settles leaves the batches after it ready. */
  lemma {:induction false} SettledKeeps(s: System, answer: Answer)
    requires Inv(s.box) && PassOk(s) && s.delivery.Posting? && !answer.Limited?
    ensures
      var box := AfterOne(s.box, s.delivery.before, s.delivery.left, Meanwhile([], answer, None), s.delivery.at);
      Inv(box) && Ready(box.rows, s.delivery.before, Concat(s.delivery.left[1..]))
  {
    hide Inv, Ready, Settle;
    NextIsReady(s.box, s.delivery.before, s.delivery.left, Meanwhile([], answer, None), s.delivery.at);
  }

  lemma {:induction false} CutKeeps(s: System, answer: Answer, died: Option<nat>)
    requires Inv(s.box) && PassOk(s) && s.delivery.Posting? && (answer.Limited? || died.Some?)
    ensures Inv(AfterOne(s.box, s.delivery.before, s.delivery.left, Meanwhile([], answer, died), s.delivery.at))
  {
    hide Inv, Ready, Settle, AfterOne;
    var here := Meanwhile([], answer, died);
    var world := (n: nat) => here;
    SendKeeps(s.box, s.delivery.before, s.delivery.left, world, 0, s.delivery.at);
    Sends(s.box, s.delivery.before, s.delivery.left, world, 0, s.delivery.at);
  }

  lemma {:induction false} AnswerKeeps(s: System, answer: Answer, died: Option<nat>)
    requires RelayInv(s)
    ensures RelayInv(AnswerStep(s, answer, died))
  {
    if s.delivery.Posting? && s.delivery.left != [] {
      hide Inv, Ready, AfterOne;
      OnePost(s.box, s.delivery.before, s.delivery.left, Meanwhile([], answer, died), s.delivery.at);
      if answer.Limited? || died.Some? { CutKeeps(s, answer, died); } else { SettledKeeps(s, answer); }
    }
  }

  lemma {:induction false} NextKeeps(s: System, step: Step)
    requires RelayInv(s)
    ensures RelayInv(Next(s, step))
  {
    hide RelayInv;
    match step
    case Commit(_, _, _, _) => CommitKeeps(s, step);
    case Tell(_, _) => TellKeeps(s, step);
    case Notice(_, _, _, _) => TellKeeps(s, step);
    case Begin(url, at) => BeginKeeps(s, url, at);
    case Request => RequestKeeps(s);
    case Answered(answer, died) => AnswerKeeps(s, answer, died);
    case Die => DieKeeps(s);
  }

  lemma {:induction false} DieKeeps(s: System)
    requires RelayInv(s)
    ensures RelayInv(DieStep(s))
  {
    hide Inv, Ready;
    AnswerKeeps(s, Accepted, Some(0));
  }

  lemma {:induction false} AfterKeeps(s: System, steps: seq<Step>)
    requires RelayInv(s)
    ensures RelayInv(After(s, steps))
    decreases |steps|
  {
    if steps == [] {
    } else {
      NextKeeps(s, steps[0]);
      AfterKeeps(Next(s, steps[0]), steps[1..]);
    }
  }

  lemma {:induction false} StartHolds()
    ensures RelayInv(START)
  {
  }

  /** The bounds on attempts and posts of a row hold in this machine too, with death, and
      everything others do, at any point. */
  lemma {:induction false} RelayIsBounded(steps: seq<Step>, i: nat)
    requires i < |After(START, steps).box.rows|
    ensures
      var s := After(START, steps);
      var row, posts := s.box.rows[i], s.box.posts;
      && Unique(s.box.rows) && SentOk(s)
      && row.attempts == Counted(posts, i) <= MAX_ATTEMPTS
      && (row.state == Failed <==> row.attempts == MAX_ATTEMPTS && !Delivered(posts, i))
      && (row.state == Sent <==> Delivered(posts, i)) && NeverAgain(posts, i)
      && Posted(posts, i) <= MAX_ATTEMPTS + Deaths(posts) + Throttled(posts, i)
  {
    hide After;
    StartHolds();
    AfterKeeps(START, steps);
    var s := After(START, steps);
    assert RowOk(s.box.rows[i], s.box.posts, i);
    PostsAreCounted(s.box.posts, i);
  }

  // ---- rows stay -------------------------------------------------------------------------

  /** Rows stay where they are and keep their subject; one that waits no more never
      waits again; and posts are only added. */
  ghost predicate Stays(s: System, later: System) {
    && |s.box.rows| <= |later.box.rows|
    && (forall i | 0 <= i < |s.box.rows| ::
          SameKey(s.box.rows[i], later.box.rows[i])
          && (s.box.rows[i].state != Pending ==> later.box.rows[i].state != Pending))
    && |s.sent| <= |later.sent| && later.sent[..|s.sent|] == s.sent
  }

  lemma {:induction false} AnswerStays(s: System, answer: Answer, died: Option<nat>)
    ensures Stays(s, AnswerStep(s, answer, died))
  {
  }

  lemma {:induction false} NextStays(s: System, step: Step)
    ensures Stays(s, Next(s, step))
  {
    hide AnswerStep, Due, Batches;
    if step.Answered? { AnswerStays(s, step.answer, step.died); }
    if step.Die? { AnswerStays(s, Accepted, Some(0)); }
  }

  lemma {:induction false} StaysOn(s: System, mid: System, later: System)
    requires Stays(s, mid) && Stays(mid, later)
    ensures Stays(s, later)
  {
    assert later.sent[..|s.sent|] == later.sent[..|mid.sent|][..|s.sent|];
  }

  lemma {:induction false} AfterStays(s: System, steps: seq<Step>)
    ensures Stays(s, After(s, steps))
    decreases |steps|
  {
    hide Next;
    if steps == [] {
    } else {
      NextStays(s, steps[0]);
      AfterStays(Next(s, steps[0]), steps[1..]);
      StaysOn(s, Next(s, steps[0]), After(s, steps));
    }
  }

  // ---- what a pass posts -----------------------------------------------------------------

  /** The batches the pass under way has not begun to post. */
  function Unsent(s: System): seq<seq<nat>> {
    if s.delivery == NoPass || s.delivery.left == [] then []
    else if s.delivery.Between? then s.delivery.left else s.delivery.left[1..]
  }

  /** How many of them it does post before a rate limit, a death or its end. */
  ghost function PassPosts(s: System, steps: seq<Step>): nat
    decreases |steps|
  {
    if steps == [] || s.delivery == NoPass then 0
    else (if Requests(s, steps[0]) then 1 else 0) + PassPosts(Next(s, steps[0]), steps[1..])
  }

  /** The pass under way posts this row. */
  ghost predicate Reaches(s: System, steps: seq<Step>, i: nat) {
    exists j | 0 <= j < |Unsent(s)| && j < PassPosts(s, steps) :: i in Unsent(s)[j]
  }

  /** A pass begins that reads this row while it waits. */
  predicate TakesUp(s: System, step: Step, i: nat) {
    step.Begin? && step.url.Usable? && s.delivery == NoPass && i in DueNow(s.box.rows, step.at)
  }

  /** Such a pass begins and posts it. */
  ghost predicate TakenLater(s: System, steps: seq<Step>, i: nat)
    decreases |steps|
  {
    && steps != []
    && ((TakesUp(s, steps[0], i) && Reaches(Next(s, steps[0]), steps[1..], i))
        || TakenLater(Next(s, steps[0]), steps[1..], i))
  }

  /** A post begun during these steps carries this row. */
  ghost predicate PostsRow(s: System, steps: seq<Step>, i: nat) {
    exists n | |s.sent| <= n < |After(s, steps).sent| :: i in After(s, steps).sent[n]
  }

  lemma {:induction false} PassStep(s: System, step: Step)
    requires s.delivery != NoPass
    ensures
      var next := Next(s, step);
      next.delivery == NoPass
      || Unsent(s) == (if Requests(s, step) then [s.delivery.left[0]] else []) + Unsent(next)
  {
    hide AfterOne, Enqueued, Acknowledged, Pass;
  }

  lemma {:induction false} OneStepPosts(s: System, step: Step)
    ensures Next(s, step).sent == s.sent + if Requests(s, step) then [s.delivery.left[0]] else []
  {
    hide AfterOne, Enqueued, Acknowledged, Pass;
  }

  lemma {:induction false} PostsUnfold(s: System, steps: seq<Step>, i: nat)
    requires steps != []
    ensures PostsRow(s, steps, i) <==>
      ((Requests(s, steps[0]) && i in s.delivery.left[0]) || PostsRow(Next(s, steps[0]), steps[1..], i))
  {
    hide Next;
    var next, end := Next(s, steps[0]), After(s, steps);
    OneStepPosts(s, steps[0]);
    AfterStays(next, steps[1..]);
    assert forall n | 0 <= n < |next.sent| :: end.sent[n] == end.sent[..|next.sent|][n] == next.sent[n];
    if Requests(s, steps[0]) && i in s.delivery.left[0] {
      assert end.sent[|s.sent|] == s.delivery.left[0];
    }
  }

  lemma {:induction false} ReachesUnfold(s: System, steps: seq<Step>, i: nat)
    requires steps != [] && s.delivery != NoPass
    ensures Reaches(s, steps, i) <==>
      ((Requests(s, steps[0]) && i in s.delivery.left[0]) || Reaches(Next(s, steps[0]), steps[1..], i))
  {
    hide Next;
    var next := Next(s, steps[0]);
    PassStep(s, steps[0]);
    if next.delivery == NoPass {
      NotOver(s, steps[0]);
    } else if Requests(s, steps[0]) {
      assert Unsent(s) == [s.delivery.left[0]] + Unsent(next);
      assert forall j | 0 <= j < |Unsent(next)| :: Unsent(next)[j] == Unsent(s)[j + 1];
      if j :| 0 <= j < |Unsent(next)| && j < PassPosts(next, steps[1..]) && i in Unsent(next)[j] {
        assert i in Unsent(s)[j + 1];
      }
      if i in s.delivery.left[0] { assert i in Unsent(s)[0]; }
      if j :| 0 <= j < |Unsent(s)| && j < PassPosts(s, steps) && i in Unsent(s)[j] {
        if j > 0 { assert i in Unsent(next)[j - 1]; }
      }
    } else {
      assert Unsent(s) == [] + Unsent(next) == Unsent(next);
    }
  }

  lemma {:induction false} NotOver(s: System, step: Step)
    requires s.delivery != NoPass && Next(s, step).delivery == NoPass
    ensures !Requests(s, step)
  {
  }

  lemma {:induction false} BeginReads(s: System, step: Step, i: nat)
    requires RelayInv(s) && s.delivery == NoPass
    ensures (exists j | 0 <= j < |Unsent(Next(s, step))| :: i in Unsent(Next(s, step))[j]) ==> TakesUp(s, step, i)
  {
    hide Inv, Ready, Batches, DueNow;
    var next := Next(s, step);
    if step.Begin? && step.url.Usable? {
      BatchesAreDue(s.box, step.url.discord, step.at);
      forall j | 0 <= j < |Unsent(next)| && i in Unsent(next)[j] ensures i in DueNow(s.box.rows, step.at) {
        InConcat(BatchesOf(s.box, step.url.discord, step.at), j, i);
      }
    }
  }

  /** Exactly when a row is posted, over any part of any run: when the pass under way has
      it in a batch it has not begun and comes to that batch, or when a later pass reads
      the row while it waits and comes to its batch. */
  lemma {:induction false} PostedExactly(s: System, steps: seq<Step>, i: nat)
    requires RelayInv(s)
    ensures PostsRow(s, steps, i) <==> Reaches(s, steps, i) || TakenLater(s, steps, i)
    decreases |steps|
  {
    hide Next, RelayInv, TakesUp, Requests, Reaches, PostsRow;
    if steps == [] {
      NothingPosted(s, i);
    } else {
      var next := Next(s, steps[0]);
      NextKeeps(s, steps[0]);
      PostedExactly(next, steps[1..], i);
      PostsUnfold(s, steps, i);
      if s.delivery == NoPass {
        NoPassPosts(s, steps, i);
      } else {
        ReachesUnfold(s, steps, i);
        TakesUpNeedsNoPass(s, steps[0], i);
      }
    }
  }

  lemma {:induction false} NothingPosted(s: System, i: nat)
    ensures !PostsRow(s, [], i) && !Reaches(s, [], i)
  {
  }

  lemma {:induction false} TakesUpNeedsNoPass(s: System, step: Step, i: nat)
    ensures TakesUp(s, step, i) ==> s.delivery == NoPass
  {
  }

  lemma {:induction false} NoPassPosts(s: System, steps: seq<Step>, i: nat)
    requires RelayInv(s) && steps != [] && s.delivery == NoPass
    ensures !Reaches(s, steps, i) && !Requests(s, steps[0])
    ensures Reaches(Next(s, steps[0]), steps[1..], i) ==> TakesUp(s, steps[0], i)
  {
    hide RelayInv, Next, TakesUp;
    BeginReads(s, steps[0], i);
  }

  /** A rate limit or a death cuts the pass under way. */
  ghost predicate Cut(s: System, steps: seq<Step>)
    decreases |steps|
  {
    && steps != [] && s.delivery != NoPass
    && ((steps[0].Answered? && s.delivery.Posting? && !Settles(Meanwhile([], steps[0].answer, steps[0].died)))
        || steps[0].Die? || Cut(Next(s, steps[0]), steps[1..]))
  }

  /** The pass under way is over by the end of these steps. */
  ghost predicate Over(s: System, steps: seq<Step>)
    decreases |steps|
  {
    s.delivery == NoPass || (steps != [] && Over(Next(s, steps[0]), steps[1..]))
  }

  /** A pass that comes to its end without being cut posts all its batches. */
  lemma {:induction false} PassIsWhole(s: System, steps: seq<Step>)
    requires PassOk(s) && RelayInv(s)
    ensures PassPosts(s, steps) <= |Unsent(s)|
    ensures Over(s, steps) && !Cut(s, steps) ==> PassPosts(s, steps) == |Unsent(s)|
    decreases |steps|
  {
    hide RelayInv, Next;
    if steps == [] || s.delivery == NoPass {
    } else {
      var next := Next(s, steps[0]);
      NextKeeps(s, steps[0]);
      PassStep(s, steps[0]);
      InvHasPass(next);
      PassIsWhole(next, steps[1..]);
      if next.delivery == NoPass {
        NotOver(s, steps[0]);
        EndsWhole(s, steps[0]);
      }
    }
  }

  lemma {:induction false} InvHasPass(s: System)
    requires RelayInv(s)
    ensures PassOk(s)
  {
  }

  lemma {:induction false} EndsWhole(s: System, step: Step)
    requires PassOk(s) && s.delivery != NoPass && Next(s, step).delivery == NoPass
    ensures Unsent(s) == []
            || (step.Answered? && s.delivery.Posting? && !Settles(Meanwhile([], step.answer, step.died))) || step.Die?
  {
    hide Ready, AfterOne, Enqueued, Acknowledged, Pass;
  }
}
