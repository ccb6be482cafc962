/** What one undisturbed turn of a watcher, of a guest stream and of the delivery thread
    comes to (agent/job_event_stream.py `stream`; agent/job_events.py `_RunnerSource`,
    `_deliver`). */
module EventProgress {
  import opened Basics
  import opened JobEvents
  import opened JobPipeline
  import Runs = OutboxRuns

  /** The spool's file holds an event its runner may record, and the outbox takes it. */
  predicate CanBeTaken(s: System, file: File) {
    && file in s.spool && Valid(s.spool[file], file.runner) && s.sender.pending == Runs.Idle
    && Verdict(s.sender.rows, file.runner, s.spool[file]) in {Stored, Duplicate}
  }

  /** The file is gone from the spool, alone, and its event is in the outbox. */
  ghost predicate HasTaken(s: System, file: File, later: System)
    requires file in s.spool
  {
    && later.spool == s.spool - {file} && later.placed == s.placed
    && exists i | 0 <= i < |later.sender.rows| :: later.sender.rows[i].event == s.spool[file]
  }

  /** A producer's file is there, with its event, and nothing else has changed. */
  lemma {:induction false} ProducedIsThere(s: System, file: File, event: Event)
    ensures
      var later := Apply(s, Produce(file, event));
      if file in s.spool then later == s
      else later == s.(spool := s.spool[file := event], placed := s.placed + {event})
  {
  }

  lemma {:induction false} RecordTakes(sender: Runs.Sender, runner: string, event: Event, now: int)
    requires sender.pending == Runs.Idle && Verdict(sender.rows, runner, event) in {Stored, Duplicate}
    ensures
      var (later, recorded) := RecordBy(sender, runner, event, now);
      && recorded
      && exists i | 0 <= i < |later.rows| :: later.rows[i].event == event
  {
    var rows := Runs.Apply(sender, Runs.Record(runner, event, now)).rows;
    if Verdict(sender.rows, runner, event) == Stored {
      assert rows[|sender.rows|].event == event;
    } else {
      var i :| 0 <= i < |sender.rows| && sender.rows[i].event == event;
      assert rows[i].event == event;
    }
  }

  /** A watcher that is not busy takes any event there is. */
  lemma {:induction false} WatcherTakes(s: System, w: nat, file: File, now: int)
    requires CanBeTaken(s, file) && (w in s.watchers ==> s.watchers[w] == Scanning)
    ensures HasTaken(s, file, Exec(s, [Read(w, file), Commit(w, now), Acknowledge(w)]))
  {
    var event := s.spool[file];
    RecordTakes(s.sender, file.runner, event, now);
    hide RecordBy, Valid, Verdict;
    var s1 := Apply(s, Read(w, file));
    assert s1 == s.(watchers := s.watchers[w := Holding(file, event)]);
    var s2 := Apply(s1, Commit(w, now));
    assert s2.spool == s.spool && s2.watchers[w] == Committed(file, event);
    ExecThree(s, Read(w, file), Commit(w, now), Acknowledge(w));
  }

  /** What a new stream has done when it has sent the event of a file. */
  function Sending(s: System, k: nat, file: File): System
    requires file in s.spool
  {
    var event := s.spool[file];
    s.(sessions := s.sessions[k :=
      Session(file.runner, None, map[event.id := Sent(file, event)], [event], None, [], None, true)])
  }

  lemma {:induction false} UpdatedAgain<T>(m: map<nat, T>, k: nat, first: T, second: T)
    ensures m[k := first][k := second] == m[k := second]
  {
  }

  lemma {:induction false} StreamSends(s: System, k: nat, file: File)
    requires CanBeTaken(s, file) && k !in s.sessions
    ensures Apply(Apply(Apply(s, Open(k, file.runner)), GuestRead(k, file)), GuestSend(k)) == Sending(s, k, file)
  {
    hide Valid, Verdict;
    var event := s.spool[file];
    var x1 := Session(file.runner, None, map[], [], None, [], None, true);
    var x2 := x1.(reading := Some(Sent(file, event)));
    var x3 := Push(x2);
    assert x3 == Session(file.runner, None, map[event.id := Sent(file, event)], [event], None, [], None, true);
    var s1 := Apply(s, Open(k, file.runner));
    assert s1 == s.(sessions := s.sessions[k := x1]);
    UpdatedAgain(s.sessions, k, x1, x2);
    var s2 := Apply(s1, GuestRead(k, file));
    assert s2 == s.(sessions := s.sessions[k := x2]);
    UpdatedAgain(s.sessions, k, x2, x3);
    assert Apply(s2, GuestSend(k)) == s.(sessions := s.sessions[k := x3]);
  }

  /** The agent records the line of a stream and answers. */
  lemma {:induction false} HostAnswers(s: System, k: nat, now: int)
    requires k in s.sessions && s.sender.pending == Runs.Idle
    requires var x := s.sessions[k]; x.connected && x.lines != [] && x.owed.None? && x.acks == []
    requires RecordBy(s.sender, s.sessions[k].runner, s.sessions[k].lines[0], now).1
    ensures
      var x := s.sessions[k];
      Apply(Apply(s, HostRecord(k, now)), HostAnswer(k)) ==
      s.(sender := RecordBy(s.sender, x.runner, x.lines[0], now).0,
         sessions := s.sessions[k := x.(lines := x.lines[1..], acks := [x.lines[0].id])])
  {
    hide RecordBy;
    var x := s.sessions[k];
    var taken := Take(x);
    var sender := RecordBy(s.sender, x.runner, x.lines[0], now).0;
    var s1 := Apply(s, HostRecord(k, now));
    assert s1 == s.(sender := sender, sessions := s.sessions[k := taken]);
    UpdatedAgain(s.sessions, k, taken, Answer(taken));
    assert Answer(taken) == x.(lines := x.lines[1..], acks := [x.lines[0].id]);
    assert Apply(s1, HostAnswer(k)) == s1.(sessions := s1.sessions[k := Answer(taken)]);
  }

  /** The guest reads the answer and deletes the file it was for. */
  lemma {:induction false} GuestDeletes(s: System, k: nat, file: File)
    requires k in s.sessions && file in s.spool
    requires
      var x := s.sessions[k];
      var event := s.spool[file];
      x.acks == [event.id] && x.deleting.None? && x.sent == map[event.id := Sent(file, event)]
    ensures
      var later := Apply(Apply(s, GuestAcknowledge(k)), GuestDelete(k));
      later.spool == s.spool - {file} && later.placed == s.placed && later.sender == s.sender
  {
    var s1 := Apply(s, GuestAcknowledge(k));
    assert s1.sessions[k].deleting == Some(Sent(file, s.spool[file]));
  }

  lemma {:induction false} StreamIsAnswered(s: System, k: nat, file: File, now: int)
    requires CanBeTaken(s, file)
    ensures HasTaken(s, file,
      Apply(Apply(Apply(Apply(Sending(s, k, file), HostRecord(k, now)), HostAnswer(k)), GuestAcknowledge(k)),
            GuestDelete(k)))
  {
    RecordTakes(s.sender, file.runner, s.spool[file], now);
    hide RecordBy, Valid, Verdict, Apply;
    var s0 := Sending(s, k, file);
    HostAnswers(s0, k, now);
    GuestDeletes(Apply(Apply(s0, HostRecord(k, now)), HostAnswer(k)), k, file);
  }

  /** A new stream takes any event there is. */
  lemma {:induction false} StreamTakes(s: System, k: nat, file: File, now: int)
    requires CanBeTaken(s, file) && k !in s.sessions
    ensures HasTaken(s, file,
      Exec(s, [Open(k, file.runner), GuestRead(k, file), GuestSend(k)]
              + [HostRecord(k, now), HostAnswer(k), GuestAcknowledge(k), GuestDelete(k)]))
  {
    var first := [Open(k, file.runner), GuestRead(k, file), GuestSend(k)];
    var second := [HostRecord(k, now), HostAnswer(k), GuestAcknowledge(k), GuestDelete(k)];
    StreamSends(s, k, file);
    StreamIsAnswered(s, k, file, now);
    hide Apply, HasTaken, CanBeTaken;
    assert first + second == [first[0], first[1], first[2], second[0], second[1], second[2], second[3]];
    ExecSeven(s, first[0], first[1], first[2], second[0], second[1], second[2], second[3]);
  }

  lemma {:induction false} ExecSeven(s: System, a: Step, b: Step, c: Step, d: Step, e: Step, f: Step, g: Step)
    ensures Exec(s, [a, b, c, d, e, f, g])
         == Apply(Apply(Apply(Apply(Apply(Apply(Apply(s, a), b), c), d), e), f), g)
  {
    hide Apply;
    assert [a, b, c, d, e, f, g][1..] == [b, c, d, e, f, g];
    ExecSix(Apply(s, a), b, c, d, e, f, g);
  }

  lemma {:induction false} ExecSix(s: System, b: Step, c: Step, d: Step, e: Step, f: Step, g: Step)
    ensures Exec(s, [b, c, d, e, f, g]) == Apply(Apply(Apply(Apply(Apply(Apply(s, b), c), d), e), f), g)
  {
    hide Apply;
    assert [b, c, d, e, f, g][1..] == [c, d, e, f, g] && [c, d, e, f, g][1..] == [d, e, f, g];
    assert [d, e, f, g][1..] == [e, f, g] && [e, f, g][1..] == [f, g] && [f, g][1..] == [g] && [g][1..] == [];
    var s1 := Apply(s, b);
    var s2 := Apply(s1, c);
    var s3 := Apply(s2, d);
    var s4 := Apply(s3, e);
    var s5 := Apply(s4, f);
    assert Exec(s, [b, c, d, e, f, g]) == Exec(s1, [c, d, e, f, g]) == Exec(s2, [d, e, f, g]);
    assert Exec(s2, [d, e, f, g]) == Exec(s3, [e, f, g]) == Exec(s4, [f, g]);
    assert Exec(s4, [f, g]) == Exec(s5, [g]) == Exec(Apply(s5, g), []);
  }

  lemma {:induction false} ExecThree(s: System, a: Step, b: Step, c: Step)
    ensures Exec(s, [a, b, c]) == Apply(Apply(Apply(s, a), b), c)
  {
    hide Apply;
    assert [a, b, c][1..] == [b, c] && [b, c][1..] == [c] && [c][1..] == [];
    assert Exec(s, [a, b, c]) == Exec(Apply(s, a), [b, c]) == Exec(Apply(Apply(s, a), b), [c]);
    assert Exec(Apply(Apply(s, a), b), [c]) == Exec(Apply(Apply(Apply(s, a), b), c), []);
  }

  /** A held row that the controller takes is marked. */
  lemma {:induction false} PostedIsMarked(s: System, event: Event)
    requires s.sender.pending == Runs.Idle && s.sender.held == Some(event) && !s.sender.accepted
    ensures
      var later := Apply(Apply(s, Post(true, true)), Outbox(Runs.Mark));
      && later.controller == s.controller + {event} && later.spool == s.spool && later.sender.held.None?
      && later.sender.rows == Prune(MarkDelivered(s.sender.rows, event.id))
  {
    hide Prune, MarkDelivered;
    var s1 := Apply(s, Post(true, true));
    assert s1.sender == s.sender.(accepted := true, posts := s1.sender.posts);
  }

  /** The delivery thread, when it is not holding a row, posts the first one that waits, and
      once the controller has answered marks it. */
  lemma {:induction false} DeliveryDelivers(s: System)
    requires s.sender.pending == Runs.Idle && s.sender.held.None? && !s.sender.accepted
    requires FirstUndelivered(s.sender.rows).Some?
    ensures
      var event := FirstUndelivered(s.sender.rows).value;
      var later := Exec(s, [Outbox(Runs.Fetch), Post(true, true), Outbox(Runs.Mark)]);
      && later.controller == s.controller + {event} && later.spool == s.spool
      && Waiting(later.sender.rows, None) == Waiting(s.sender.rows, Some(event.id))
      && later.sender.held.None?
  {
    var event := FirstUndelivered(s.sender.rows).value;
    OnlyThePostedRowMoves(s.sender.rows, event.id);
    hide FirstUndelivered, Prune, MarkDelivered, Waiting, Done;
    var s1 := Apply(s, Outbox(Runs.Fetch));
    assert s1 == s.(sender := s.sender.(held := Some(event)));
    hide Apply;
    PostedIsMarked(s1, event);
    ExecThree(s, Outbox(Runs.Fetch), Post(true, true), Outbox(Runs.Mark));
  }
}
