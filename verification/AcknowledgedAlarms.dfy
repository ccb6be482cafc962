/** The promise of `acknowledge` in dashboard/alarms.py, that no raise is sent for an
    acknowledged alarm any more and its resolve still is, and the one of
    dashboard/alarm_notify.py, that every raise and resolve becomes a row: exactly when
    they hold, over every run of book, tellers, outbox and deliverer together. */
module AcknowledgedAlarms {
  import opened Basics
  import opened AlarmDelivery
  import opened DeliveryRuns
  import opened AcknowledgedRows
  import opened AlarmRelay
  import opened RelayedAlarms
  import Alarms
  import Book = AlarmBook
  import Courses = AlarmCourses
  import Acknowledgements

  // ---- which notices of an alarm are posted ---------------------------------------------

  /** A post begun during these steps carries a raise, or a resolve, of this alarm. */
  ghost predicate NoticePosted(s: System, steps: seq<Step>, key: Alarms.Key, name: string) {
    exists i: nat :: i < |After(s, steps).box.rows| && IsNotice(After(s, steps).box.rows[i], key, name)
                     && PostsRow(s, steps, i)
  }

  /** The pass under way had read it into a batch it comes to. */
  ghost predicate Overtaken(s: System, steps: seq<Step>, key: Alarms.Key, name: string) {
    exists i: nat :: i < |s.box.rows| && IsNotice(s.box.rows[i], key, name) && Reaches(s, steps, i)
  }

  ghost predicate TakenFromQueue(s: System, steps: seq<Step>, key: Alarms.Key, name: string) {
    exists i: nat :: i < |s.box.rows| && IsNotice(s.box.rows[i], key, name) && TakenLater(s, steps, i)
  }

  /** Committed and not yet told at first, or committed since, it became a row that a
      pass then reads and comes to. */
  ghost predicate PostedAnew(s: System, steps: seq<Step>, key: Alarms.Key, name: string) {
    exists i: nat, at: int ::
      && |s.box.rows| <= i < |After(s, steps).box.rows| && IsRowOf(After(s, steps).box.rows[i], key, name, at)
      && (Untold(s, key, name, at) || Comes(s, steps, key, name, at))
      && TakenLater(s, steps, i)
  }

  lemma {:induction false} UnsentAreRows(s: System, steps: seq<Step>, i: nat)
    requires RelayInv(s) && Reaches(s, steps, i)
    ensures i < |s.box.rows| && s.delivery != NoPass && i in Concat(s.delivery.left)
  {
    hide Inv;
    var j :| 0 <= j < |Unsent(s)| && j < PassPosts(s, steps) && i in Unsent(s)[j];
    var left := s.delivery.left;
    InConcat(left, if s.delivery.Between? then j else j + 1, i);
    assert Untouched(s.box.rows, s.delivery.before, i);
  }

  lemma {:induction false} OldNotices(s: System, steps: seq<Step>, i: nat, key: Alarms.Key, name: string)
    requires i < |s.box.rows|
    ensures i < |After(s, steps).box.rows|
    ensures IsNotice(After(s, steps).box.rows[i], key, name) <==> IsNotice(s.box.rows[i], key, name)
  {
    hide After;
    AfterStays(s, steps);
    assert SameKey(s.box.rows[i], After(s, steps).box.rows[i]);
  }

  /** Exactly when a raise, or a resolve, of an alarm is posted over any part of any run. */
  lemma {:induction false} NoticePostedExactly(s: System, steps: seq<Step>, key: Alarms.Key, name: string)
    requires RelayInv(s)
    ensures NoticePosted(s, steps, key, name) <==>
      (Overtaken(s, steps, key, name) || TakenFromQueue(s, steps, key, name) || PostedAnew(s, steps, key, name))
  {
    hide RelayInv, After, Reaches, TakenLater, PostsRow, Untold, Comes, IsNotice;
    var rows := After(s, steps).box.rows;
    forall i: nat ensures PostsRow(s, steps, i) <==> Reaches(s, steps, i) || TakenLater(s, steps, i) {
      PostedExactly(s, steps, i);
    }
    forall i: nat | i < |s.box.rows|
      ensures i < |rows| && (IsNotice(rows[i], key, name) <==> IsNotice(s.box.rows[i], key, name))
    {
      OldNotices(s, steps, i, key, name);
    }
    if i: nat :| i < |rows| && IsNotice(rows[i], key, name) && PostsRow(s, steps, i) {
      if i >= |s.box.rows| {
        if Reaches(s, steps, i) { UnsentAreRows(s, steps, i); }
        NewRowsAreTold(s, steps, i, key, name);
        assert IsRowOf(rows[i], key, name, rows[i].raisedAt.value);
      }
    }
    assert forall i: nat, at | i < |rows| :: IsRowOf(rows[i], key, name, at) ==> IsNotice(rows[i], key, name);
  }

  lemma {:induction false} IdleIsNotTaken(s: System, steps: seq<Step>, i: nat)
    requires i < |s.box.rows| && s.box.rows[i].state != Pending
    ensures !TakenLater(s, steps, i)
    decreases |steps|
  {
    hide Next;
    if steps == [] {
    } else {
      NextStays(s, steps[0]);
      if steps[0].Begin? { DueNowSelects(s.box.rows, steps[0].at); }
      IdleIsNotTaken(Next(s, steps[0]), steps[1..], i);
    }
  }

  // ---- raises after an acknowledgement --------------------------------------------------------

  /** This step acknowledges the alarm. */
  ghost predicate Acknowledges(s: System, step: Step, key: Alarms.Key) {
    Commits(s, step) && Acks(s, step) && step.input.key == key
  }

  lemma {:induction false} RaisesAreComing(events: seq<Alarms.Event>)
    ensures Courses.Raises(events) <==> exists event, at :: event in events && Says(event, "raised", at)
  {
    if i :| 0 <= i < |events| && events[i].Raised? {
      assert events[i] in events && Says(events[i], "raised", events[i].at);
    }
    if event, at :| event in events && Says(event, "raised", at) {
      var i :| 0 <= i < |events| && events[i] == event;
      assert events[i].Raised?;
    }
  }

  ghost predicate RaiseComes(s: System, steps: seq<Step>, key: Alarms.Key) {
    exists at :: Comes(s, steps, key, "raised", at)
  }

  lemma {:induction false} ComingIsRaising(s: System, steps: seq<Step>, key: Alarms.Key)
    ensures RaiseComes(s, steps, key) <==> Courses.Raises(Course(s, steps, key).events)
  {
    hide Course, Says, Courses.Raises;
    var events := Course(s, steps, key).events;
    RaisesAreComing(events);
    if event, at :| event in events && Says(event, "raised", at) { assert Comes(s, steps, key, "raised", at); }
  }

  lemma {:induction false} AckOfBook(s: System, step: Step, key: Alarms.Key)
    requires RelayInv(s) && Acknowledges(s, step, key)
    ensures
      var row, later := s.book[key], Book.Get(Next(s, step).book, key);
      && later == Some(row.(acked := Some(step.input.actor))) && Alarms.KindFits(key, later)
      && Book.EventsOf(step.told, key) == [Alarms.Acknowledged(row.kind, row.since, step.input.actor)]
  {
    OneCommit(s, step, key);
  }

  lemma {:induction false} AckOfRows(s: System, step: Step, key: Alarms.Key, i: nat)
    requires Acknowledges(s, step, key) && i < |Next(s, step).box.rows|
    requires Next(s, step).box.rows[i].key == Alarm(key)
    ensures Next(s, step).box.rows[i].state != Pending
  {
  }

  lemma {:induction false} AckTellsNoRaise(s: System, step: Step, key: Alarms.Key, at: int)
    requires RelayInv(s) && Acknowledges(s, step, key)
    ensures Untold(Next(s, step), key, "raised", at) <==> Untold(s, key, "raised", at)
  {
    hide RelayInv, Says, Book.Stepped;
    AckOfBook(s, step, key);
    var next := Next(s, step);
    if Untold(next, key, "raised", at) {
      UntoldBefore(s, step, key, "raised", at);
      AckIsNoRaise(s.book[key], step.input.actor, at);
    }
    if call: nat, j: nat :| UntoldBy(s, call, j, key, "raised", at) {
      SameCall(s, step, call);
      assert call in next.calls;
      assert UntoldBy(next, call, j, key, "raised", at);
    }
  }

  lemma {:induction false} AckIsNoRaise(row: Alarms.Row, actor: string, at: int)
    ensures !Says(Alarms.Acknowledged(row.kind, row.since, actor), "raised", at)
  {
  }

  /** Exactly when a raise of an alarm is posted although it was acknowledged, for every
      run, every alarm and every continuation: when the pass under way had read it into a
      batch it had not begun and comes to that batch; or when a raise that was committed
      and not yet told at the acknowledgement, or that the book commits after it, becomes
      a row that a later pass reads and comes to. */
  lemma {:induction false} AcknowledgedRaiseIsPostedExactly(
    first: seq<Step>, step: Step, rest: seq<Step>, key: Alarms.Key)
    requires Acknowledges(After(START, first), step, key)
    ensures
      var before := After(START, first);
      var s := Next(before, step);
      && (NoticePosted(s, rest, key, "raised") <==>
            (Overtaken(s, rest, key, "raised") || PostedAnew(s, rest, key, "raised")))
      && (forall at :: Untold(s, key, "raised", at) <==> Untold(before, key, "raised", at))
  {
    hide After, Next, RelayInv, NoticePosted, Overtaken, PostedAnew, Acknowledges;
    var before := After(START, first);
    StartHolds();
    AfterKeeps(START, first);
    NextKeeps(before, step);
    var s := Next(before, step);
    NoticePostedExactly(s, rest, key, "raised");
    if i: nat :| i < |s.box.rows| && IsNotice(s.box.rows[i], key, "raised") && TakenLater(s, rest, i) {
      AckOfRows(before, step, key, i);
      IdleIsNotTaken(s, rest, i);
    }
    forall at ensures Untold(s, key, "raised", at) <==> Untold(before, key, "raised", at) {
      AckTellsNoRaise(before, step, key, at);
    }
  }

  /** And exactly when the book commits one after it. For a runner, while no reading sees
      it online or gone: when the watch had not been raised and comes due, or its raise
      was planned and has turned and come due again. For any alarm that had been raised,
      not as planned, never while it lasts. */
  lemma {:induction false} RaiseComesExactly(first: seq<Step>, step: Step, rest: seq<Step>, key: Alarms.Key)
    requires Acknowledges(After(START, first), step, key)
    ensures
      var before := After(START, first);
      var s, row := Next(before, step), before.book[key];
      && (key.RunnerKey? && Courses.Lasts(key, Inputs(s, rest)) ==>
            (RaiseComes(s, rest, key) <==> Acknowledgements.RaiseFollows(row, key, Inputs(s, rest))))
      && ((Acknowledgements.Final(Some(row))
           && Acknowledgements.Alive(Book.Get(s.book, key), key, Inputs(s, rest))) ==> !RaiseComes(s, rest, key))
  {
    hide After, Next, Inputs, RelayInv, Courses.Lasts, Acknowledgements.Alive, RaiseComes, Courses.Raises;
    var before := After(START, first);
    StartHolds();
    AfterKeeps(START, first);
    AckOfBook(before, step, key);
    var s := Next(before, step);
    ComingIsRaising(s, rest, key);
    var row := Book.Get(s.book, key);
    if key.RunnerKey? && Courses.Lasts(key, Inputs(s, rest)) {
      Acknowledgements.RaisedAgainExactly(row.value, key, Inputs(s, rest));
    }
    if Acknowledgements.Final(row) && Acknowledgements.Alive(row, key, Inputs(s, rest)) {
      Acknowledgements.FinalRun(row, key, Inputs(s, rest));
    }
  }

  /** A raise committed and not yet told at the acknowledgement became a row that a later
      pass read and came to. */
  ghost predicate ToldLate(before: System, s: System, rest: seq<Step>, key: Alarms.Key) {
    exists i: nat, at: int ::
      && |s.box.rows| <= i < |After(s, rest).box.rows| && IsRowOf(After(s, rest).box.rows[i], key, "raised", at)
      && Untold(before, key, "raised", at) && TakenLater(s, rest, i)
  }

  /** A raise committed after it did. */
  ghost predicate RaisedAnew(s: System, rest: seq<Step>, key: Alarms.Key) {
    exists i: nat, at: int ::
      && |s.box.rows| <= i < |After(s, rest).box.rows| && IsRowOf(After(s, rest).box.rows[i], key, "raised", at)
      && Comes(s, rest, key, "raised", at) && TakenLater(s, rest, i)
  }

  lemma {:induction false} LateOrAnew(before: System, s: System, rest: seq<Step>, key: Alarms.Key)
    requires forall at :: Untold(s, key, "raised", at) <==> Untold(before, key, "raised", at)
    ensures PostedAnew(s, rest, key, "raised") <==> (ToldLate(before, s, rest, key) || RaisedAnew(s, rest, key))
    ensures !RaiseComes(s, rest, key) ==> !RaisedAnew(s, rest, key)
  {
    hide After, Untold, Comes, IsRowOf, TakenLater;
  }

  /** The promise of an acknowledgement while the alarm lasts. Of a runner, a raise is posted
      after it if and only if the pass under way had read it into a batch it comes to; or
      it was committed and not yet told and came late; or the watch had not been raised
      and comes due, or its planned raise turns and comes due again, and that raise came
      to be posted. Of an alarm that had been raised, not as planned, in the first two
      cases only. */
  lemma {:induction false} AcknowledgedWhileItLasts(first: seq<Step>, step: Step, rest: seq<Step>, key: Alarms.Key)
    requires Acknowledges(After(START, first), step, key)
    ensures
      var before := After(START, first);
      var s, row := Next(before, step), before.book[key];
      && (key.RunnerKey? && Courses.Lasts(key, Inputs(s, rest)) ==>
            (NoticePosted(s, rest, key, "raised") <==>
               (Overtaken(s, rest, key, "raised") || ToldLate(before, s, rest, key)
                || (Acknowledgements.RaiseFollows(row, key, Inputs(s, rest)) && RaisedAnew(s, rest, key)))))
      && ((Acknowledgements.Final(Some(row))
           && Acknowledgements.Alive(Book.Get(s.book, key), key, Inputs(s, rest))) ==>
            (NoticePosted(s, rest, key, "raised") <==>
               (Overtaken(s, rest, key, "raised") || ToldLate(before, s, rest, key))))
  {
    hide After, Next, Inputs, NoticePosted, Overtaken, PostedAnew, ToldLate, RaisedAnew, RaiseComes, Acknowledges;
    hide Untold, Courses.Lasts, Acknowledgements.Alive, Acknowledgements.RaiseFollows, Acknowledgements.Final;
    AcknowledgedRaiseIsPostedExactly(first, step, rest, key);
    RaiseComesExactly(first, step, rest, key);
    LateOrAnew(After(START, first), Next(After(START, first), step), rest, key);
  }

  // ---- raises lost with the process -----------------------------------------------------------

  /** Exactly when the raise of an alarm that lasts reaches the outbox: it is there
      already, or a call that committed it lives to tell it, wanted. */
  lemma {:induction false} RaiseReachesOutboxExactly(s: System, steps: seq<Step>, key: Alarms.Key, at: int)
    requires RelayInv(s) && Acknowledgements.Final(Book.Get(s.book, key))
    requires Acknowledgements.Alive(Book.Get(s.book, key), key, Inputs(s, steps))
    ensures Holds(After(s, steps).box.rows, Alarm(key), "raised", Some(at)) <==>
      (Holds(s.box.rows, Alarm(key), "raised", Some(at))
       || exists call: nat, j: nat :: UntoldBy(s, call, j, key, "raised", at) && Reported(s, steps, call, j))
  {
    hide Holds, After, UntoldBy, Reported, Inputs, Courses.Raises, Courses.RunFrom, Acknowledgements.Alive, Inv;
    Acknowledgements.FinalRun(Book.Get(s.book, key), key, Inputs(s, steps));
    ComingIsRaising(s, steps, key);
    assert !Comes(s, steps, key, "raised", at);
    TellingDecides(s, steps, key, "raised", at);
  }

  lemma {:induction false} DeathForgets(s: System)
    ensures Next(s, Die).calls == map[] && Next(s, Die).book == s.book
    ensures |Next(s, Die).box.rows| == |s.box.rows|
  {
    AnswerAddsNoRow(s, Accepted, Some(0));
  }

  /** So a raise that was committed and not told when the process dies is lost for as long
      as the alarm lasts: no row is ever made for it. */
  lemma {:induction false} DeathLosesRaise(s: System, rest: seq<Step>, key: Alarms.Key, at: int)
    requires RelayInv(s) && Acknowledgements.Final(Book.Get(s.book, key))
    requires !Holds(s.box.rows, Alarm(key), "raised", Some(at))
    requires Acknowledgements.Alive(Book.Get(s.book, key), key, Inputs(Next(s, Die), rest))
    ensures !Holds(After(Next(s, Die), rest).box.rows, Alarm(key), "raised", Some(at))
  {
    hide Holds, After, Next, Inputs, Acknowledgements.Alive, RelayInv, Reported;
    DeathForgets(s);
    NextKeeps(s, Die);
    HeldStep(s, Die, key, "raised", at);
    RaiseReachesOutboxExactly(Next(s, Die), rest, key, at);
  }

  // ---- what becomes of a row that waits ---------------------------------------------------------

  /** No pass under way has read the row. */
  predicate Unread(s: System, i: nat) {
    s.delivery == NoPass || i !in Concat(s.delivery.left)
  }

  /** The alarm of this row is acknowledged. */
  ghost predicate Hushes(s: System, step: Step, i: nat)
    requires i < |s.box.rows|
  {
    Commits(s, step) && Acks(s, step) && s.box.rows[i].key == Alarm(step.input.key)
  }

  /** A pass reads it and has nowhere to send it. */
  predicate Drops(s: System, step: Step, i: nat) {
    step.Begin? && !step.url.Usable? && s.delivery == NoPass && i in DueNow(s.box.rows, step.at)
  }

  /** What comes first to a waiting row. */
  datatype Fate = Waits | Read | Hushed | Dropped

  ghost function FateOf(s: System, steps: seq<Step>, i: nat): Fate
    requires i < |s.box.rows|
    decreases |steps|
  {
    if steps == [] then Waits
    else if Hushes(s, steps[0], i) then Hushed
    else if Drops(s, steps[0], i) then Dropped
    else if TakesUp(s, steps[0], i) then Read
    else
      NextStays(s, steps[0]);
      FateOf(Next(s, steps[0]), steps[1..], i)
  }

  lemma {:induction false} UnreadAnswer(s: System, answer: Answer, died: Option<nat>, i: nat)
    requires i < |s.box.rows| && Unread(s, i)
    ensures i < |AnswerStep(s, answer, died).box.rows| && Unread(AnswerStep(s, answer, died), i)
    ensures AnswerStep(s, answer, died).box.rows[i].state == s.box.rows[i].state
  {
    if s.delivery.Posting? && s.delivery.left != [] {
      assert forall k | k in Written(s.delivery.left[0], died) :: k in s.delivery.left[0];
    }
  }

  lemma {:induction false} UnreadStep(s: System, step: Step, i: nat)
    requires RelayInv(s) && i < |s.box.rows| && Unread(s, i)
    ensures
      var later := Next(s, step);
      && i < |later.box.rows| && (Unread(later, i) || TakesUp(s, step, i))
      && later.box.rows[i].state ==
           if s.box.rows[i].state == Pending && (Hushes(s, step, i) || Drops(s, step, i)) then Skipped
           else s.box.rows[i].state
  {
    hide AnswerStep, Inv, Ready, Batches, Due, Book.Stepped;
    DueNowWaits(s, step, i);
    if step.Answered? { UnreadAnswer(s, step.answer, step.died, i); }
    if step.Die? { UnreadAnswer(s, Accepted, Some(0), i); }
    if step.Begin? && step.url.Usable? && s.delivery == NoPass {
      BatchesAreDue(s.box, step.url.discord, step.at);
    }
  }

  lemma {:induction false} DueNowWaits(s: System, step: Step, i: nat)
    ensures step.Begin? && i in DueNow(s.box.rows, step.at) ==> i < |s.box.rows| && s.box.rows[i].state == Pending
  {
    if step.Begin? { DueNowSelects(s.box.rows, step.at); }
  }

  lemma {:induction false} UnreadIsNotReached(s: System, steps: seq<Step>, i: nat)
    requires RelayInv(s) && Unread(s, i)
    ensures !Reaches(s, steps, i)
  {
    hide RelayInv, Reaches;
    if Reaches(s, steps, i) { UnsentAreRows(s, steps, i); }
  }

  /** A row that waits no more and that no pass has read stays as it is, for ever. */
  lemma {:induction false} IdleStays(s: System, steps: seq<Step>, i: nat)
    requires RelayInv(s) && i < |s.box.rows| && Unread(s, i) && s.box.rows[i].state != Pending
    ensures i < |After(s, steps).box.rows| && After(s, steps).box.rows[i].state == s.box.rows[i].state
    ensures !PostsRow(s, steps, i)
    decreases |steps|
  {
    hide RelayInv, Next, Reaches, PostsRow;
    PostedExactly(s, steps, i);
    UnreadIsNotReached(s, steps, i);
    IdleIsNotTaken(s, steps, i);
    if steps == [] {
    } else {
      NextKeeps(s, steps[0]);
      UnreadStep(s, steps[0], i);
      DueNowWaits(s, steps[0], i);
      IdleStays(Next(s, steps[0]), steps[1..], i);
    }
  }

  /** What becomes of a row that waits, over every run: as long as nothing comes to it it
      waits and is not posted; acknowledged, or read with nowhere to send it, before a
      pass reads it, it is skipped and never posted; so it is posted only once a pass has
      read it first. */
  lemma {:induction false} FateDecides(s: System, steps: seq<Step>, i: nat)
    requires RelayInv(s) && i < |s.box.rows| && Unread(s, i) && s.box.rows[i].state == Pending
    ensures i < |After(s, steps).box.rows|
    ensures
      var fate, state := FateOf(s, steps, i), After(s, steps).box.rows[i].state;
      && (fate == Waits ==> state == Pending && !PostsRow(s, steps, i))
      && (fate == Hushed || fate == Dropped ==> state == Skipped && !PostsRow(s, steps, i))
    decreases |steps|
  {
    hide RelayInv, Next, PostsRow, Hushes, Drops, TakesUp;
    if steps == [] {
      NothingPosted(s, i);
    } else {
      var next := Next(s, steps[0]);
      NextKeeps(s, steps[0]);
      UnreadStep(s, steps[0], i);
      AfterStays(next, steps[1..]);
      PostsUnfold(s, steps, i);
      UnreadIsNotBegun(s, steps[0], i);
      if Hushes(s, steps[0], i) || Drops(s, steps[0], i) {
        NotBoth(s, steps[0], i);
        IdleStays(next, steps[1..], i);
      } else if !TakesUp(s, steps[0], i) {
        FateDecides(next, steps[1..], i);
      }
    }
  }

  lemma {:induction false} UnreadIsNotBegun(s: System, step: Step, i: nat)
    requires Unread(s, i)
    ensures !(Requests(s, step) && i in s.delivery.left[0])
  {
  }

  lemma {:induction false} NotBoth(s: System, step: Step, i: nat)
    requires i < |s.box.rows| && (Hushes(s, step, i) || Drops(s, step, i))
    ensures !TakesUp(s, step, i)
  {
  }

  /** Exactly when the resolve of an alarm, acknowledged or not, is posted once it is told
      and wanted: when a pass reads its row while it waits and comes to its batch. It is
      skipped, and never posted, when something else comes before a pass does: its alarm
      is acknowledged again, which the next outage of the same runner allows, or there is
      nowhere to send it. */
  lemma {:induction false} ResolveIsPostedExactly(
    s: System, call: nat, rest: seq<Step>, key: Alarms.Key, at: int)
    requires RelayInv(s) && UntoldBy(s, call, 0, key, "resolved", at)
    requires !Holds(s.box.rows, Alarm(key), "resolved", Some(at))
    ensures
      var next, i := Next(s, Tell(call, true)), |s.box.rows|;
      && |next.box.rows| == i + 1 && IsRowOf(next.box.rows[i], key, "resolved", at)
      && (PostsRow(next, rest, i) <==> TakenLater(next, rest, i))
      && var fate := FateOf(next, rest, i);
         && (PostsRow(next, rest, i) ==> fate == Read)
         && (fate == Hushed || fate == Dropped ==>
               i < |After(next, rest).box.rows| && After(next, rest).box.rows[i].state == Skipped)
         && (fate == Waits ==>
               i < |After(next, rest).box.rows| && After(next, rest).box.rows[i].state == Pending)
  {
    hide After, RelayInv, Holds, PostsRow, TakenLater, Reaches, FateOf;
    var next, i := Next(s, Tell(call, true)), |s.box.rows|;
    TellAddsRow(s, call, key, at);
    NextKeeps(s, Tell(call, true));
    NewIsUnread(s, call);
    PostedExactly(next, rest, i);
    UnreadIsNotReached(next, rest, i);
    FateDecides(next, rest, i);
  }

  lemma {:induction false} TellAddsRow(s: System, call: nat, key: Alarms.Key, at: int)
    requires UntoldBy(s, call, 0, key, "resolved", at)
    requires !Holds(s.box.rows, Alarm(key), "resolved", Some(at))
    ensures
      var rows := Next(s, Tell(call, true)).box.rows;
      && |rows| == |s.box.rows| + 1 && IsRowOf(rows[|s.box.rows|], key, "resolved", at)
      && rows[|s.box.rows|].state == Pending
  {
  }

  lemma {:induction false} NewIsUnread(s: System, call: nat)
    requires RelayInv(s)
    ensures Unread(Next(s, Tell(call, true)), |s.box.rows|)
  {
    hide Inv;
    if s.delivery != NoPass {
      assert forall k | k in Concat(s.delivery.left) :: Untouched(s.box.rows, s.delivery.before, k);
    }
  }
}
