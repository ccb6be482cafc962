/** Exactly which raises and resolves become rows of the outbox and are posted, and what an
    acknowledgement, or the death of the process, does to them: the promises of
    `acknowledge` in dashboard/alarms.py and of dashboard/alarm_notify.py. */
module RelayedAlarms {
  import opened Basics
  import opened AlarmDelivery
  import opened DeliveryRuns
  import opened AlarmRelay
  import Alarms
  import AlarmRuns
  import Book = AlarmBook
  import Courses = AlarmCourses
  import Acknowledgements

  // ---- what the book commits --------------------------------------------------------

  predicate Says(event: Alarms.Event, name: string, at: int) {
    EventName(event) == name && RaisedAt(event) == Some(at)
  }

  /** The observations committed during these steps. */
  ghost function Inputs(s: System, steps: seq<Step>): seq<Alarms.Input>
    decreases |steps|
  {
    if steps == [] then []
    else (if Commits(s, steps[0]) then [steps[0].input] else []) + Inputs(Next(s, steps[0]), steps[1..])
  }

  /** What they make of one alarm. */
  ghost function Course(s: System, steps: seq<Step>, key: Alarms.Key): Alarms.Outcome {
    Courses.RunFrom(Book.Get(s.book, key), key, Inputs(s, steps))
  }

  /** One of them commits this raise or resolve. */
  ghost predicate Comes(s: System, steps: seq<Step>, key: Alarms.Key, name: string, at: int) {
    exists event | event in Course(s, steps, key).events :: Says(event, name, at)
  }

  lemma {:induction false} OneCommit(s: System, step: Step, key: Alarms.Key)
    requires Commits(s, step)
    ensures
      var after := Alarms.Step(Book.Get(s.book, key), key, step.input);
      Book.Get(Next(s, step).book, key) == after.row && Book.EventsOf(step.told, key) == after.events
  {
    assert Book.At(step.book, step.told, key) == Alarms.Step(Book.Get(s.book, key), key, step.input);
  }

  lemma {:induction false} BookOnlyCommits(s: System, step: Step)
    requires !Commits(s, step)
    ensures Next(s, step).book == s.book
  {
    hide AfterOne, Enqueued, Pass;
  }

  lemma {:induction false} CourseUnfold(s: System, steps: seq<Step>, key: Alarms.Key)
    requires steps != []
    ensures
      var rest := Course(Next(s, steps[0]), steps[1..], key);
      Course(s, steps, key) ==
        if Commits(s, steps[0])
        then Alarms.Outcome(
               rest.row, Alarms.Step(Book.Get(s.book, key), key, steps[0].input).events + rest.events)
        else rest
  {
    hide Alarms.Step, Next, Book.Stepped;
    var next, row := Next(s, steps[0]), Book.Get(s.book, key);
    var more := Inputs(next, steps[1..]);
    if Commits(s, steps[0]) {
      OneCommit(s, steps[0], key);
      Courses.RunFromJoins(row, key, [steps[0].input], more);
      Acknowledgements.OneInput(row, key, steps[0].input);
    } else {
      BookOnlyCommits(s, steps[0]);
      assert [] + more == more;
    }
  }

  /** The book at the end of a run is what its observations make of every alarm. */
  lemma {:induction false} BookFollowsCourse(s: System, steps: seq<Step>, key: Alarms.Key)
    ensures Book.Get(After(s, steps).book, key) == Course(s, steps, key).row
    decreases |steps|
  {
    hide Next;
    if steps == [] {
    } else {
      CourseUnfold(s, steps, key);
      BookFollowsCourse(Next(s, steps[0]), steps[1..], key);
    }
  }

  lemma {:induction false} ComesUnfold(s: System, steps: seq<Step>, key: Alarms.Key, name: string, at: int)
    requires steps != []
    ensures Comes(s, steps, key, name, at) <==>
      (Comes(Next(s, steps[0]), steps[1..], key, name, at)
       || (Commits(s, steps[0])
           && exists event | event in Book.EventsOf(steps[0].told, key) :: Says(event, name, at)))
  {
    hide Next, Says, Book.Stepped;
    CourseUnfold(s, steps, key);
    if Commits(s, steps[0]) { OneCommit(s, steps[0], key); }
  }

  // ---- what is committed and not yet told -------------------------------------------------

  ghost predicate UntoldBy(s: System, call: nat, j: nat, key: Alarms.Key, name: string, at: int) {
    && call in s.calls && j < |s.calls[call]|
    && s.calls[call][j].key == key && Says(s.calls[call][j].event, name, at)
  }

  /** A call has committed this raise or resolve and has yet to tell it. */
  ghost predicate Untold(s: System, key: Alarms.Key, name: string, at: int) {
    exists call: nat, j: nat :: UntoldBy(s, call, j, key, name, at)
  }

  lemma {:induction false} ToldIsEvent(told: seq<Book.Told>, j: nat)
    requires j < |told|
    ensures told[j].event in Book.EventsOf(told, told[j].key)
    decreases |told|
  {
    if j < |told| - 1 { ToldIsEvent(told[..|told| - 1], j); }
  }

  lemma {:induction false} CallsStep(s: System, step: Step, call: nat, j: nat)
    requires call in Next(s, step).calls && j < |Next(s, step).calls[call]|
    ensures
      var here := Next(s, step).calls[call][j];
      || (call in s.calls && j < |s.calls[call]| && s.calls[call][j] == here && step != Tell(call, true)
          && step != Tell(call, false))
      || (call in s.calls && j + 1 < |s.calls[call]| && s.calls[call][j + 1] == here
          && step.Tell? && step.call == call)
      || (Commits(s, step) && step.call == call && j < |step.told| && step.told[j] == here)
  {
    hide AfterOne, Enqueued, Acknowledged, Pass, Book.Stepped;
  }

  lemma {:induction false} UntoldBefore(s: System, step: Step, key: Alarms.Key, name: string, at: int)
    requires Untold(Next(s, step), key, name, at)
    ensures Untold(s, key, name, at)
      || (Commits(s, step) && exists event | event in Book.EventsOf(step.told, key) :: Says(event, name, at))
  {
    hide Next, Book.Stepped, Says;
    var call: nat, j: nat :| UntoldBy(Next(s, step), call, j, key, name, at);
    CallsStep(s, step, call, j);
    if Commits(s, step) && step.call == call && j < |step.told| && step.told[j] == Next(s, step).calls[call][j] {
      ToldIsEvent(step.told, j);
    } else if call in s.calls && j < |s.calls[call]| && s.calls[call][j] == Next(s, step).calls[call][j] {
      assert UntoldBy(s, call, j, key, name, at);
    } else {
      assert UntoldBy(s, call, j + 1, key, name, at);
    }
  }

  // ---- from notices to rows ---------------------------------------------------------------

  predicate IsNotice(row: Row, key: Alarms.Key, name: string) {
    row.key == Alarm(key) && row.event == name
  }

  predicate IsRowOf(row: Row, key: Alarms.Key, name: string, at: int) {
    IsNotice(row, key, name) && row.raisedAt == Some(at)
  }

  predicate Sendable(name: string) {
    name == "raised" || name == "resolved"
  }

  /** A call tells this raise or resolve, and it is wanted. */
  predicate TellsNow(s: System, step: Step, key: Alarms.Key, name: string, at: int) {
    && step.Tell? && step.wanted && Telling(s, step.call)
    && s.calls[step.call][0].key == key && Says(s.calls[step.call][0].event, name, at)
  }

  ghost predicate Told(s: System, steps: seq<Step>, key: Alarms.Key, name: string, at: int)
    decreases |steps|
  {
    && steps != []
    && (TellsNow(s, steps[0], key, name, at) || Told(Next(s, steps[0]), steps[1..], key, name, at))
  }

  lemma {:induction false} AnswerAddsNoRow(s: System, answer: Answer, died: Option<nat>)
    ensures |AnswerStep(s, answer, died).box.rows| == |s.box.rows|
  {
  }

  /** A step adds at most one row, and an alarm's only by telling it. */
  lemma {:induction false} OneStepRows(s: System, step: Step)
    ensures |Next(s, step).box.rows| <= |s.box.rows| + 1
    ensures |Next(s, step).box.rows| > |s.box.rows| ==>
      var row := Next(s, step).box.rows[|s.box.rows|];
      row.key.JobRun?
      || (&& step.Tell? && step.wanted && Telling(s, step.call)
          && var told := s.calls[step.call][0];
             && row.key == Alarm(told.key) && row.event == EventName(told.event) && row.raisedAt == RaisedAt(told.event)
             && row.event in SENDABLE && row.state == Pending
             && !Holds(s.box.rows, row.key, row.event, row.raisedAt))
  {
    hide AnswerStep, Due, Batches, Holds, Book.Stepped;
    if step.Answered? { AnswerAddsNoRow(s, step.answer, step.died); }
    if step.Die? { AnswerAddsNoRow(s, Accepted, Some(0)); }
  }

  lemma {:induction false} NewRowIsTold(s: System, step: Step, key: Alarms.Key, name: string)
    requires |Next(s, step).box.rows| > |s.box.rows|
    requires IsNotice(Next(s, step).box.rows[|s.box.rows|], key, name)
    ensures
      var row := Next(s, step).box.rows[|s.box.rows|];
      row.raisedAt.Some? && TellsNow(s, step, key, name, row.raisedAt.value)
  {
    hide Next, Holds;
    OneStepRows(s, step);
  }

  /** Every row an alarm gets during a run tells a raise or a resolve that was committed
      and not yet told when the run began, or that it commits. */
  lemma {:induction false} NewRowsAreTold(s: System, steps: seq<Step>, i: nat, key: Alarms.Key, name: string)
    requires |s.box.rows| <= i < |After(s, steps).box.rows| && IsNotice(After(s, steps).box.rows[i], key, name)
    ensures
      var at := After(s, steps).box.rows[i].raisedAt;
      at.Some? && (Untold(s, key, name, at.value) || Comes(s, steps, key, name, at.value))
    decreases |steps|
  {
    hide Next, Says, Comes, Untold, TellsNow;
    var next, end := Next(s, steps[0]), After(s, steps);
    AfterStays(next, steps[1..]);
    OneStepRows(s, steps[0]);
    if i < |next.box.rows| {
      assert SameKey(next.box.rows[i], end.box.rows[i]);
      NewRowIsTold(s, steps[0], key, name);
      TellingIsUntold(s, steps[0], key, name, end.box.rows[i].raisedAt.value);
    } else {
      NewRowsAreTold(next, steps[1..], i, key, name);
      var at := end.box.rows[i].raisedAt.value;
      ComesUnfold(s, steps, key, name, at);
      if Untold(next, key, name, at) { UntoldBefore(s, steps[0], key, name, at); }
    }
  }

  lemma {:induction false} TellingIsUntold(s: System, step: Step, key: Alarms.Key, name: string, at: int)
    requires TellsNow(s, step, key, name, at)
    ensures Untold(s, key, name, at)
  {
    assert UntoldBy(s, step.call, 0, key, name, at);
  }

  lemma {:induction false} HeldStep(s: System, step: Step, key: Alarms.Key, name: string, at: int)
    requires Sendable(name)
    ensures Holds(Next(s, step).box.rows, Alarm(key), name, Some(at)) <==>
      (Holds(s.box.rows, Alarm(key), name, Some(at)) || TellsNow(s, step, key, name, at))
  {
    var rows, later := s.box.rows, Next(s, step).box.rows;
    OneStepRows(s, step);
    NextStays(s, step);
    TellIsHeld(s, step, key, name, at);
    hide Next, Holds, TellsNow;
    HeldAmong(rows, later, Alarm(key), name, Some(at));
    if |later| > |rows| && IsRowOf(later[|rows|], key, name, at) { NewRowIsTold(s, step, key, name); }
  }

  lemma {:induction false} HeldAmong(rows: seq<Row>, later: seq<Row>, key: Subject, name: string, at: Option<int>)
    requires |rows| <= |later| <= |rows| + 1
    requires forall i | 0 <= i < |rows| :: SameKey(rows[i], later[i])
    ensures Holds(later, key, name, at) <==>
      (Holds(rows, key, name, at)
       || (|later| > |rows| && later[|rows|].key == key && later[|rows|].event == name && later[|rows|].raisedAt == at))
  {
    if i :| 0 <= i < |later| && later[i].key == key && later[i].event == name && later[i].raisedAt == at {
      if i < |rows| { assert SameKey(rows[i], later[i]); }
    }
    if i :| 0 <= i < |rows| && rows[i].key == key && rows[i].event == name && rows[i].raisedAt == at {
      assert SameKey(rows[i], later[i]);
    }
  }

  lemma {:induction false} TellIsHeld(s: System, step: Step, key: Alarms.Key, name: string, at: int)
    requires Sendable(name)
    ensures TellsNow(s, step, key, name, at) ==> Holds(Next(s, step).box.rows, Alarm(key), name, Some(at))
  {
    if TellsNow(s, step, key, name, at) {
      var rows, later := s.box.rows, Next(s, step).box.rows;
      if !Holds(rows, Alarm(key), name, Some(at)) {
        assert later[|rows|].key == Alarm(key) && later[|rows|].event == name && later[|rows|].raisedAt == Some(at);
      }
    }
  }

  /** A raise or resolve is in the outbox at the end of a run exactly when it was there
      before or is told, and wanted, during it. */
  lemma {:induction false} HeldExactly(s: System, steps: seq<Step>, key: Alarms.Key, name: string, at: int)
    requires Sendable(name)
    ensures Holds(After(s, steps).box.rows, Alarm(key), name, Some(at)) <==>
      (Holds(s.box.rows, Alarm(key), name, Some(at)) || Told(s, steps, key, name, at))
    decreases |steps|
  {
    hide Next, Holds, TellsNow;
    if steps == [] {
    } else {
      HeldStep(s, steps[0], key, name, at);
      HeldExactly(Next(s, steps[0]), steps[1..], key, name, at);
    }
  }

  // ---- lost with the process ----------------------------------------------------------------

  /** The call lives to tell its j-th event from here, and it is wanted then. */
  ghost predicate Reported(s: System, steps: seq<Step>, call: nat, j: nat)
    decreases |steps|
  {
    && steps != [] && call in s.calls && j < |s.calls[call]|
    && if steps[0].Tell? && steps[0].call == call
       then if j == 0 then steps[0].wanted else Reported(Next(s, steps[0]), steps[1..], call, j - 1)
       else Reported(Next(s, steps[0]), steps[1..], call, j)
  }

  lemma {:induction false} ReportedIsTold(
    s: System, steps: seq<Step>, call: nat, j: nat, key: Alarms.Key, name: string, at: int)
    requires UntoldBy(s, call, j, key, name, at) && Reported(s, steps, call, j)
    ensures Told(s, steps, key, name, at)
    decreases |steps|
  {
    hide Says;
    var next := Next(s, steps[0]);
    if steps[0].Tell? && steps[0].call == call {
      if j > 0 {
        assert next.calls[call] == s.calls[call][1..];
        ReportedIsTold(next, steps[1..], call, j - 1, key, name, at);
      }
    } else {
      SameCall(s, steps[0], call);
      if call in next.calls { ReportedIsTold(next, steps[1..], call, j, key, name, at); }
    }
  }

  lemma {:induction false} SameCall(s: System, step: Step, call: nat)
    requires call in s.calls && !(step.Tell? && step.call == call)
    ensures call in Next(s, step).calls ==> Next(s, step).calls[call] == s.calls[call]
  {
    hide AfterOne, Enqueued, Acknowledged, Pass, Book.Stepped;
  }

  lemma {:induction false} ToldIsReported(s: System, steps: seq<Step>, key: Alarms.Key, name: string, at: int)
    returns (call: nat, j: nat)
    requires Told(s, steps, key, name, at) && !Comes(s, steps, key, name, at)
    ensures UntoldBy(s, call, j, key, name, at) && Reported(s, steps, call, j)
    decreases |steps|
  {
    hide Next, Says, Book.Stepped, Comes;
    if TellsNow(s, steps[0], key, name, at) {
      call, j := steps[0].call, 0;
    } else {
      var next := Next(s, steps[0]);
      ComesUnfold(s, steps, key, name, at);
      call, j := ToldIsReported(next, steps[1..], key, name, at);
      CallsStep(s, steps[0], call, j);
      var step := steps[0];
      if Commits(s, step) && step.call == call && j < |step.told| && step.told[j] == next.calls[call][j] {
        ToldIsEvent(step.told, j);
        assert false;
      } else if steps[0].Tell? && steps[0].call == call {
        j := j + 1;
      }
    }
  }

  /** Exactly when a raise or resolve that no observation commits meanwhile is in the
      outbox at the end of a run: when it was, or when a call that had committed it lives
      to tell it, and it is wanted. */
  lemma {:induction false} TellingDecides(s: System, steps: seq<Step>, key: Alarms.Key, name: string, at: int)
    requires Sendable(name) && !Comes(s, steps, key, name, at)
    ensures Holds(After(s, steps).box.rows, Alarm(key), name, Some(at)) <==>
      (Holds(s.box.rows, Alarm(key), name, Some(at))
       || exists call: nat, j: nat :: UntoldBy(s, call, j, key, name, at) && Reported(s, steps, call, j))
  {
    hide Holds, Told, UntoldBy, Reported, Comes;
    HeldExactly(s, steps, key, name, at);
    if Told(s, steps, key, name, at) {
      var call, j := ToldIsReported(s, steps, key, name, at);
    }
    if call: nat, j: nat :| UntoldBy(s, call, j, key, name, at) && Reported(s, steps, call, j) {
      ReportedIsTold(s, steps, call, j, key, name, at);
    }
  }
}
