/** The whole event path on a worker: producers' spool files, the local
    watchers, the guest streams with their `sent` maps and acknowledgement
    pipes (agent/job_event_stream.py `OwnedSpool`, `stream`;
    agent/job_events.py `_RunnerSource`), the outbox of OutboxRuns, and the
    controller that accepts posts. Any number of watchers and streams may read
    one spool at once, and the agent, a guest or a connection may fail between
    any two steps. */
module JobPipeline {
  import opened Basics
  import opened JobEvents
  import Runs = OutboxRuns

  datatype File = File(runner: string, name: string)

  type Spool = map<File, Event>

  /** Where one local watcher is: between files, holding a validated event it
      has read, or past the durable record of it. */
  datatype Watcher = Scanning | Holding(file: File, event: Event) | Committed(file: File, event: Event)

  datatype Sent = Sent(file: File, event: Event)

  /** One guest stream: the file it has read but not yet looked up, its `sent`
      map, the lines on their way to the agent, the identity the agent has recorded but not yet answered, and the
      acknowledgements on their way back. */
  datatype Session = Session(
    runner: string,
    reading: Option<Sent>,
    sent: map<string, Sent>,
    lines: seq<Event>,
    owed: Option<string>,
    acks: seq<string>,
    deleting: Option<Sent>,
    connected: bool)

  datatype System = System(
    spool: Spool,
    watchers: map<nat, Watcher>,
    sessions: map<nat, Session>,
    sender: Runs.Sender,
    controller: set<Event>,
    placed: set<Event>)          // every event any producer ever put in a spool

  datatype Step =
    | Produce(file: File, event: Event)
    | Read(watcher: nat, file: File)
    | Commit(watcher: nat, now: int)
    | Acknowledge(watcher: nat)
    | StopWatcher(watcher: nat)
    | Open(session: nat, runner: string)
    | GuestRead(session: nat, file: File)
    | GuestSend(session: nat)
    | HostRecord(session: nat, now: int)
    | HostAnswer(session: nat)
    | GuestAcknowledge(session: nat)
    | GuestDelete(session: nat)
    | Disconnect(session: nat)
    | EndSession(session: nat)
    | Outbox(step: Runs.Step)
    | Post(reached: bool, answered: bool)

  const START := System(map[], map[], map[], Runs.EMPTY, {}, {})

  /** `OwnedSpool.acknowledge`: delete the file only if it still holds exactly
      the event that was expected there. */
  function Unlink(spool: Spool, file: File, expected: Event): Spool {
    if file in spool && spool[file] == expected then spool - {file} else spool
  }

  predicate Readable(spool: Spool, file: File) {
    file in spool && Valid(spool[file], file.runner)
  }

  /** `record`: the sender after it, and whether it returned normally. */
  function RecordBy(sender: Runs.Sender, runner: string, event: Event, now: int): (Runs.Sender, bool) {
    (Runs.Apply(sender, Runs.Record(runner, event, now)),
     Verdict(sender.rows, runner, event) in {Stored, Duplicate})
  }

  // ---- one stream -------------------------------------------------------------

  /** The guest skips an event already in `sent`; another it notes there and
      writes its line. The file may have been deleted since it was read. */
  function Push(session: Session): Session
    requires session.reading.Some?
  {
    var item := session.reading.value;
    if item.event.id in session.sent then session.(reading := None)
    else session.(reading := None,
                  sent := session.sent[item.event.id := item],
                  lines := if session.connected then session.lines + [item.event] else session.lines)
  }

  /** The agent has recorded the oldest line. */
  function Take(session: Session): Session
    requires session.lines != []
  {
    session.(lines := session.lines[1..], owed := Some(session.lines[0].id))
  }

  /** The agent answers for what it recorded. */
  function Answer(session: Session): Session
    requires session.owed.Some?
  {
    session.(owed := None, acks := session.acks + [session.owed.value])
  }

  /** The guest reads one acknowledgement and takes its entry out of `sent`. */
  function Pop(session: Session): Session
    requires session.acks != []
  {
    var id := session.acks[0];
    session.(acks := session.acks[1..], sent := session.sent - {id},
             deleting := if id in session.sent then Some(session.sent[id]) else None)
  }

  /** The connection is gone; acknowledgements already in the pipe may still arrive. */
  function Hangup(session: Session): Session {
    session.(lines := [], owed := None, connected := false)
  }

  // ---- the steps ----------------------------------------------------------------

  function CommitStep(s: System, w: nat, now: int): System {
    if w !in s.watchers || !s.watchers[w].Holding? || s.sender.pending != Runs.Idle then s
    else
      var held := s.watchers[w];
      var (sender, recorded) := RecordBy(s.sender, held.file.runner, held.event, now);
      s.(sender := sender,
         watchers := s.watchers[w := if recorded then Committed(held.file, held.event) else Scanning])
  }

  function AcknowledgeStep(s: System, w: nat): System {
    if w !in s.watchers || !s.watchers[w].Committed? then s
    else s.(spool := Unlink(s.spool, s.watchers[w].file, s.watchers[w].event),
            watchers := s.watchers[w := Scanning])
  }

  function GuestReadStep(s: System, k: nat, file: File): System {
    if k !in s.sessions || file.runner != s.sessions[k].runner || !Readable(s.spool, file) then s
    else s.(sessions := s.sessions[k := s.sessions[k].(reading := Some(Sent(file, s.spool[file])))])
  }

  function GuestSendStep(s: System, k: nat): System {
    if k !in s.sessions || s.sessions[k].reading.None? then s
    else s.(sessions := s.sessions[k := Push(s.sessions[k])])
  }

  function HostRecordStep(s: System, k: nat, now: int): System {
    if k !in s.sessions || s.sender.pending != Runs.Idle then s
    else
      var session := s.sessions[k];
      if !session.connected || session.lines == [] || session.owed.Some? then s
      else
        var event := session.lines[0];
        var (sender, recorded) := RecordBy(s.sender, session.runner, event, now);
        s.(sender := sender,
           sessions := s.sessions[k :=
             if recorded then Take(session) else Hangup(session)])
  }

  function HostAnswerStep(s: System, k: nat): System {
    if k !in s.sessions || s.sessions[k].owed.None? || !s.sessions[k].connected then s
    else
      s.(sessions := s.sessions[k := Answer(s.sessions[k])])
  }

  function GuestAcknowledgeStep(s: System, k: nat): System {
    if k !in s.sessions || s.sessions[k].acks == [] || s.sessions[k].deleting.Some? then s
    else s.(sessions := s.sessions[k := Pop(s.sessions[k])])
  }

  function GuestDeleteStep(s: System, k: nat): System {
    if k !in s.sessions || s.sessions[k].deleting.None? then s
    else
      var session := s.sessions[k];
      s.(sessions := s.sessions[k := session.(deleting := None)],
         spool := Unlink(s.spool, session.deleting.value.file, session.deleting.value.event))
  }

  function OutboxStep(s: System, step: Runs.Step): System {
    match step
    case Record(_, _, _) => s     // only watchers and streams record
    case Post(_) => s             // posts are the step below
    case Crash =>
      s.(sender := Runs.Apply(s.sender, step), watchers := map[],
         sessions := map k | k in s.sessions :: Hangup(s.sessions[k]))
    case _ => s.(sender := Runs.Apply(s.sender, step))
  }

  /** The post may reach the controller and its answer still be lost. */
  function PostStep(s: System, reached: bool, answered: bool): System {
    if s.sender.held.None? || s.sender.accepted then s
    else s.(controller := if reached then s.controller + {s.sender.held.value} else s.controller,
            sender := Runs.Apply(s.sender, Runs.Post(reached && answered)))
  }

  function Apply(s: System, step: Step): System {
    match step
    case Produce(file, event) =>
      if file in s.spool then s
      else s.(spool := s.spool[file := event], placed := s.placed + {event})
    case Read(w, file) =>
      if w in s.watchers && s.watchers[w] != Scanning then s
      else if !Readable(s.spool, file) then s
      else s.(watchers := s.watchers[w := Holding(file, s.spool[file])])
    case Commit(w, now) => CommitStep(s, w, now)
    case Acknowledge(w) => AcknowledgeStep(s, w)
    case StopWatcher(w) => s.(watchers := s.watchers - {w})
    case Open(k, runner) =>
      if k in s.sessions then s
      else s.(sessions := s.sessions[k := Session(runner, None, map[], [], None, [], None, true)])
    case GuestRead(k, file) => GuestReadStep(s, k, file)
    case GuestSend(k) => GuestSendStep(s, k)
    case HostRecord(k, now) => HostRecordStep(s, k, now)
    case HostAnswer(k) => HostAnswerStep(s, k)
    case GuestAcknowledge(k) => GuestAcknowledgeStep(s, k)
    case GuestDelete(k) => GuestDeleteStep(s, k)
    case Disconnect(k) =>
      if k in s.sessions then s.(sessions := s.sessions[k := Hangup(s.sessions[k])]) else s
    case EndSession(k) => s.(sessions := s.sessions - {k})
    case Outbox(inner) => OutboxStep(s, inner)
    case Post(reached, answered) => PostStep(s, reached, answered)
  }

  function Exec(s: System, steps: seq<Step>): System
    decreases |steps|
  {
    if steps == [] then s else Exec(Apply(s, steps[0]), steps[1..])
  }

  // ---- the invariant ----------------------------------------------------------

  ghost predicate Durable(s: System, event: Event) {
    event in s.sender.inserted
  }

  /** Identities in flight on one stream, oldest first. */
  function InFlight(session: Session): seq<string> {
    session.acks + (if session.owed.Some? then [session.owed.value] else [])
    + seq(|session.lines|, i requires 0 <= i < |session.lines| => session.lines[i].id)
  }

  function Answered(session: Session): seq<string> {
    session.acks + (if session.owed.Some? then [session.owed.value] else [])
  }

  ghost predicate Distinct(ids: seq<string>) {
    forall i, j | 0 <= i < j < |ids| :: ids[i] != ids[j]
  }

  /** Each identity is in flight at most once and is still in `sent`; a line
      carries what `sent` says; an answer in flight is for a durable event. */
  ghost predicate SessionInv(session: Session, inserted: seq<Event>) {
    && Distinct(InFlight(session))
    && (forall id | id in session.sent :: session.sent[id].event.id == id)
    && (forall i | 0 <= i < |session.lines| ::
          session.lines[i].id in session.sent && session.sent[session.lines[i].id].event == session.lines[i])
    && (forall i | 0 <= i < |Answered(session)| ::
          Answered(session)[i] in session.sent && session.sent[Answered(session)[i]].event in inserted)
    && (session.deleting.Some? ==> session.deleting.value.event in inserted)
  }

  ghost predicate WatcherInv(watcher: Watcher, inserted: seq<Event>) {
    watcher.Committed? ==> watcher.event in inserted
  }

  ghost predicate InSpool(spool: Spool, event: Event) {
    exists file :: file in spool && spool[file] == event
  }

  ghost predicate ControllerInv(s: System) {
    && (forall i | 0 <= i < Runs.Delivered(s.sender) && i < |s.sender.inserted| ::
          s.sender.inserted[i] in s.controller)
    && (s.sender.accepted && s.sender.held.Some? ==> s.sender.held.value in s.controller)
  }

  ghost predicate PlacedInv(s: System) {
    forall event | event in s.placed :: InSpool(s.spool, event) || Durable(s, event)
  }

  ghost predicate Inv(s: System) {
    && Runs.Inv(s.sender)
    && (forall w | w in s.watchers :: WatcherInv(s.watchers[w], s.sender.inserted))
    && (forall k | k in s.sessions :: SessionInv(s.sessions[k], s.sender.inserted))
    && ControllerInv(s)
    && PlacedInv(s)
  }

  // ---- what the outbox promises its callers --------------------------------------

  lemma {:induction false} SenderGrows(sender: Runs.Sender, step: Runs.Step)
    requires Runs.Inv(sender)
    ensures sender.inserted <= Runs.Apply(sender, step).inserted
  {
  }

  /** `record` returns normally only once the identical event is committed. */
  lemma {:induction false} RecordedIsCommitted(sender: Runs.Sender, runner: string, event: Event, now: int)
    requires Runs.Inv(sender) && sender.pending == Runs.Idle
    requires RecordBy(sender, runner, event, now).1
    ensures event in RecordBy(sender, runner, event, now).0.inserted
  {
    if Verdict(sender.rows, runner, event) == Duplicate {
      var i :| 0 <= i < |sender.rows| && sender.rows[i].event == event;
      assert event == sender.inserted[|sender.inserted| - |sender.rows| + i];
    }
  }

  // ---- what each stream step keeps ---------------------------------------------------

  lemma {:induction false} SessionGrows(session: Session, before: seq<Event>, after: seq<Event>)
    requires SessionInv(session, before) && before <= after
    ensures SessionInv(session, after)
  {
    assert forall event | event in before :: event in after;
  }

  lemma {:induction false} InFlightIsSent(session: Session, inserted: seq<Event>, id: string)
    requires SessionInv(session, inserted) && id in InFlight(session)
    ensures id in session.sent
  {
    var i :| 0 <= i < |InFlight(session)| && InFlight(session)[i] == id;
    var n := |Answered(session)|;
    if i < n {
      assert Answered(session)[i] == id;
    } else {
      assert session.lines[i - n].id == id;
    }
  }

  lemma {:induction false} PushKeeps(session: Session, inserted: seq<Event>)
    requires SessionInv(session, inserted) && session.reading.Some?
    ensures SessionInv(Push(session), inserted)
  {
    var after := Push(session);
    var id := session.reading.value.event.id;
    if id in session.sent || !session.connected {
      assert InFlight(after) == InFlight(session);
    } else {
      assert InFlight(after) == InFlight(session) + [id];
      assert id !in InFlight(session) by {
        if id in InFlight(session) { InFlightIsSent(session, inserted, id); }
      }
    }
    assert Answered(after) == Answered(session);
  }

  lemma {:induction false} TakeKeeps(session: Session, inserted: seq<Event>)
    requires SessionInv(session, inserted) && session.lines != [] && session.owed.None?
    requires session.lines[0] in inserted
    ensures SessionInv(Take(session), inserted)
  {
    assert InFlight(Take(session)) == InFlight(session);
    assert Answered(Take(session)) == Answered(session) + [session.lines[0].id];
  }

  lemma {:induction false} AnswerKeeps(session: Session, inserted: seq<Event>)
    requires SessionInv(session, inserted) && session.owed.Some?
    ensures SessionInv(Answer(session), inserted)
  {
    assert InFlight(Answer(session)) == InFlight(session);
    assert Answered(Answer(session)) == Answered(session);
  }

  lemma {:induction false} PopKeeps(session: Session, inserted: seq<Event>)
    requires SessionInv(session, inserted) && session.acks != []
    ensures SessionInv(Pop(session), inserted)
  {
    var after := Pop(session);
    var id := session.acks[0];
    assert InFlight(session)[0] == id && Answered(session)[0] == id;
    assert InFlight(after) == InFlight(session)[1..];
    assert Answered(after) == Answered(session)[1..];
    forall i | 0 <= i < |session.lines| ensures session.lines[i].id != id {
      assert InFlight(session)[|Answered(session)| + i] == session.lines[i].id;
    }
    forall i | 0 < i < |Answered(session)| ensures Answered(session)[i] != id {
      assert InFlight(session)[i] == Answered(session)[i];
    }
  }

  lemma {:induction false} HangupKeeps(session: Session, inserted: seq<Event>)
    requires SessionInv(session, inserted)
    ensures SessionInv(Hangup(session), inserted)
  {
    var after := Hangup(session);
    assert InFlight(after) == session.acks == Answered(after);
    forall i, j | 0 <= i < j < |session.acks| ensures session.acks[i] != session.acks[j] {
      assert InFlight(session)[i] == session.acks[i] && InFlight(session)[j] == session.acks[j];
    }
    forall i | 0 <= i < |session.acks|
      ensures session.acks[i] in session.sent && session.sent[session.acks[i]].event in inserted
    {
      assert Answered(session)[i] == session.acks[i];
    }
  }

  // ---- what each system step keeps ------------------------------------------------

  /** Watchers, streams and placed events lose nothing when the outbox moves on. */
  lemma {:induction false} OthersSurvive(s: System, sender: Runs.Sender)
    requires Inv(s) && s.sender.inserted <= sender.inserted
    ensures forall w | w in s.watchers :: WatcherInv(s.watchers[w], sender.inserted)
    ensures forall k | k in s.sessions :: SessionInv(s.sessions[k], sender.inserted)
    ensures PlacedInv(s.(sender := sender))
  {
    forall k | k in s.sessions ensures SessionInv(s.sessions[k], sender.inserted) {
      SessionGrows(s.sessions[k], s.sender.inserted, sender.inserted);
    }
    assert forall event | event in s.sender.inserted :: event in sender.inserted;
  }

  lemma {:induction false} ControllerKeeps(s: System, step: Runs.Step)
    requires Runs.Inv(s.sender) && ControllerInv(s) && !step.Post?
    ensures ControllerInv(s.(sender := Runs.Apply(s.sender, step)))
  {
    Runs.ApplyKeepsTable(s.sender, step);
    SenderGrows(s.sender, step);
  }

  lemma {:induction false} SenderKeeps(s: System, step: Runs.Step)
    requires Inv(s) && !step.Post?
    ensures Inv(s.(sender := Runs.Apply(s.sender, step)))
  {
    Runs.ApplyKeeps(s.sender, step);
    SenderGrows(s.sender, step);
    OthersSurvive(s, Runs.Apply(s.sender, step));
    ControllerKeeps(s, step);
  }

  lemma {:induction false} PostKeepsController(s: System, reached: bool, answered: bool)
    requires Runs.Inv(s.sender) && ControllerInv(s)
    ensures ControllerInv(PostStep(s, reached, answered))
  {
  }

  lemma {:induction false} PostKeeps(s: System, reached: bool, answered: bool)
    requires Inv(s)
    ensures Inv(PostStep(s, reached, answered))
  {
    var step := Runs.Post(reached && answered);
    Runs.ApplyKeeps(s.sender, step);
    SenderGrows(s.sender, step);
    OthersSurvive(s, Runs.Apply(s.sender, step));
    PostKeepsController(s, reached, answered);
  }

  lemma {:induction false} WatcherStepKeeps(s: System, w: nat, watcher: Watcher)
    requires Inv(s) && WatcherInv(watcher, s.sender.inserted)
    ensures Inv(s.(watchers := s.watchers[w := watcher]))
  {
  }

  lemma {:induction false} SessionStepKeeps(s: System, k: nat, session: Session)
    requires Inv(s) && SessionInv(session, s.sender.inserted)
    ensures Inv(s.(sessions := s.sessions[k := session]))
  {
  }

  lemma {:induction false} UnlinkKeeps(s: System, file: File, expected: Event)
    requires Inv(s) && Durable(s, expected)
    ensures Inv(s.(spool := Unlink(s.spool, file, expected)))
  {
    var after := Unlink(s.spool, file, expected);
    forall event | event in s.placed ensures InSpool(after, event) || Durable(s, event) {
      if !Durable(s, event) {
        var f :| f in s.spool && s.spool[f] == event;
        assert f in after && after[f] == event;
      }
    }
  }

  lemma {:induction false} ProduceKeeps(s: System, file: File, event: Event)
    requires Inv(s) && file !in s.spool
    ensures Inv(Apply(s, Produce(file, event)))
  {
    var after := s.spool[file := event];
    forall e | e in s.placed + {event} ensures InSpool(after, e) || Durable(s, e) {
      if e == event {
        assert after[file] == event;
      } else if !Durable(s, e) {
        var f :| f in s.spool && s.spool[f] == e;
        assert f in after && after[f] == e;
      }
    }
  }

  lemma {:induction false} CommitKeeps(s: System, w: nat, now: int)
    requires Inv(s)
    ensures Inv(CommitStep(s, w, now))
  {
    if w in s.watchers && s.watchers[w].Holding? && s.sender.pending == Runs.Idle {
      var held := s.watchers[w];
      var step := Runs.Record(held.file.runner, held.event, now);
      SenderKeeps(s, step);
      var next := s.(sender := Runs.Apply(s.sender, step));
      var (_, recorded) := RecordBy(s.sender, held.file.runner, held.event, now);
      if recorded {
        RecordedIsCommitted(s.sender, held.file.runner, held.event, now);
        WatcherStepKeeps(next, w, Committed(held.file, held.event));
      } else {
        WatcherStepKeeps(next, w, Scanning);
      }
    }
  }

  lemma {:induction false} HostRecordKeeps(s: System, k: nat, now: int)
    requires Inv(s)
    ensures Inv(HostRecordStep(s, k, now))
  {
    if k in s.sessions && s.sender.pending == Runs.Idle {
      var session := s.sessions[k];
      if session.connected && session.lines != [] && session.owed.None? {
        var event := session.lines[0];
        var step := Runs.Record(session.runner, event, now);
        SenderKeeps(s, step);
        var next := s.(sender := Runs.Apply(s.sender, step));
        if RecordBy(s.sender, session.runner, event, now).1 {
          RecordedIsCommitted(s.sender, session.runner, event, now);
          TakeKeeps(session, next.sender.inserted);
          SessionStepKeeps(next, k, Take(session));
        } else {
          HangupKeeps(session, next.sender.inserted);
          SessionStepKeeps(next, k, Hangup(session));
        }
      }
    }
  }

  lemma {:induction false} CrashKeeps(s: System)
    requires Inv(s)
    ensures Inv(OutboxStep(s, Runs.Crash))
  {
    SenderKeeps(s, Runs.Crash);
    forall k | k in s.sessions ensures SessionInv(Hangup(s.sessions[k]), s.sender.inserted) {
      HangupKeeps(s.sessions[k], s.sender.inserted);
    }
  }

  lemma {:induction false} OutboxKeeps(s: System, step: Runs.Step)
    requires Inv(s)
    ensures Inv(OutboxStep(s, step))
  {
    if step.Crash? {
      CrashKeeps(s);
    } else if !step.Record? && !step.Post? {
      SenderKeeps(s, step);
    }
  }

  lemma {:induction false} WatcherKeeps(s: System, step: Step)
    requires Inv(s) && (step.Read? || step.Commit? || step.Acknowledge? || step.StopWatcher?)
    ensures Inv(Apply(s, step))
  {
    match step {
      case Read(w, file) =>
        if Readable(s.spool, file) { WatcherStepKeeps(s, w, Holding(file, s.spool[file])); }
      case Commit(w, now) => CommitKeeps(s, w, now);
      case Acknowledge(w) =>
        if w in s.watchers && s.watchers[w].Committed? {
          UnlinkKeeps(s, s.watchers[w].file, s.watchers[w].event);
          WatcherStepKeeps(s.(spool := Unlink(s.spool, s.watchers[w].file, s.watchers[w].event)), w, Scanning);
        }
      case StopWatcher(w) =>
    }
  }

  lemma {:induction false} GuestKeeps(s: System, k: nat, step: Step)
    requires Inv(s) && k in s.sessions
    requires step in {GuestSend(k), HostAnswer(k), GuestAcknowledge(k), GuestDelete(k), Disconnect(k)}
    ensures Inv(Apply(s, step))
  {
    var session, inserted := s.sessions[k], s.sender.inserted;
    if step.GuestSend? {
      if session.reading.Some? {
        PushKeeps(session, inserted);
        SessionStepKeeps(s, k, Push(session));
      }
    } else if step.HostAnswer? {
      if session.owed.Some? {
        AnswerKeeps(session, inserted);
        SessionStepKeeps(s, k, Answer(session));
      }
    } else if step.GuestAcknowledge? {
      if session.acks != [] {
        PopKeeps(session, inserted);
        SessionStepKeeps(s, k, Pop(session));
      }
    } else if step.GuestDelete? {
      if session.deleting.Some? {
        UnlinkKeeps(s, session.deleting.value.file, session.deleting.value.event);
        var done := session.(deleting := None);
        assert InFlight(done) == InFlight(session) && Answered(done) == Answered(session);
        var deleting := session.deleting.value;
        SessionStepKeeps(s.(spool := Unlink(s.spool, deleting.file, deleting.event)), k, done);
      }
    } else {
      HangupKeeps(session, inserted);
      SessionStepKeeps(s, k, Hangup(session));
    }
  }

  lemma {:induction false} SessionKeeps(s: System, step: Step)
    requires Inv(s)
    requires step.Open? || step.GuestRead? || step.GuestSend? || step.HostAnswer? || step.GuestAcknowledge?
             || step.GuestDelete? || step.Disconnect? || step.EndSession?
    ensures Inv(Apply(s, step))
  {
    if step.Open? {
      SessionStepKeeps(s, step.session, Session(step.runner, None, map[], [], None, [], None, true));
    } else if step.GuestRead? {
      if step.session in s.sessions && Readable(s.spool, step.file) {
        var session := s.sessions[step.session];
        var after := session.(reading := Some(Sent(step.file, s.spool[step.file])));
        assert InFlight(after) == InFlight(session) && Answered(after) == Answered(session);
        SessionStepKeeps(s, step.session, after);
      }
    } else if !step.EndSession? && step.session in s.sessions {
      GuestKeeps(s, step.session, step);
    }
  }

  lemma {:induction false} ApplyKeeps(s: System, step: Step)
    requires Inv(s)
    ensures Inv(Apply(s, step))
  {
    match step {
      case Produce(file, event) => if file !in s.spool { ProduceKeeps(s, file, event); }
      case Read(_, _) => WatcherKeeps(s, step);
      case Commit(_, _) => WatcherKeeps(s, step);
      case Acknowledge(_) => WatcherKeeps(s, step);
      case StopWatcher(_) => WatcherKeeps(s, step);
      case HostRecord(k, now) => HostRecordKeeps(s, k, now);
      case Outbox(inner) => OutboxKeeps(s, inner);
      case Post(reached, answered) => PostKeeps(s, reached, answered);
      case _ => SessionKeeps(s, step);
    }
  }

  lemma {:induction false} ExecKeeps(s: System, steps: seq<Step>)
    requires Inv(s)
    ensures Inv(Exec(s, steps))
    decreases |steps|
  {
    if steps == [] {
    } else {
      ApplyKeeps(s, steps[0]);
      ExecKeeps(Apply(s, steps[0]), steps[1..]);
    }
  }

  // ---- main results ------------------------------------------------------------------

  ghost predicate InOutbox(s: System, event: Event) {
    exists i | 0 <= i < |s.sender.rows| :: s.sender.rows[i].event == event
  }

  /** A committed event is in the outbox until the controller has accepted it. */
  lemma {:induction false} CommittedIsSafe(s: System, event: Event)
    requires Inv(s) && Durable(s, event)
    ensures InOutbox(s, event) || event in s.controller
  {
    var i :| 0 <= i < |s.sender.inserted| && s.sender.inserted[i] == event;
    var gone := |s.sender.inserted| - |s.sender.rows|;
    if i >= gone {
      assert s.sender.rows[i - gone].event == event;
    }
  }

  /** No event is lost. In every run, with every interleaving and every crash,
      each event a producer ever placed is still in its spool, or is in the
      outbox, or has been accepted by the controller. */
  lemma {:induction false} NoEventLost(steps: seq<Step>, event: Event)
    requires event in Exec(START, steps).placed
    ensures var s := Exec(START, steps);
            InSpool(s.spool, event) || InOutbox(s, event) || event in s.controller
  {
    ExecKeeps(START, steps);
    var s := Exec(START, steps);
    if !InSpool(s.spool, event) {
      CommittedIsSafe(s, event);
    }
  }

  lemma {:induction false} SpoolUntouched(s: System, step: Step)
    requires !step.Produce? && !step.Acknowledge? && !step.GuestDelete?
    ensures Apply(s, step).spool == s.spool
  {
  }

  lemma {:induction false} SpoolStep(s: System, step: Step, file: File)
    requires Inv(s) && file in s.spool
    ensures var s' := Apply(s, step);
            if file in s'.spool then s'.spool[file] == s.spool[file] else Durable(s, s.spool[file])
  {
    if step.GuestDelete? {
      assert step.session in s.sessions ==> SessionInv(s.sessions[step.session], s.sender.inserted);
    } else if step.Acknowledge? {
      assert step.watcher in s.watchers ==> WatcherInv(s.watchers[step.watcher], s.sender.inserted);
    } else if !step.Produce? {
      SpoolUntouched(s, step);
    }
  }

  /** A file disappears only after the identical event was committed; nothing
      else ever changes a file. */
  lemma {:induction false} UnlinkAfterCommit(steps: seq<Step>, step: Step, file: File)
    requires file in Exec(START, steps).spool
    ensures var s := Exec(START, steps);
            var s' := Apply(s, step);
            if file in s'.spool then s'.spool[file] == s.spool[file] else Durable(s, s.spool[file])
  {
    ExecKeeps(START, steps);
    SpoolStep(Exec(START, steps), step, file);
  }

  /** The delivered mark is never set ahead of the controller. */
  lemma {:induction false} DeliveredIsAccepted(steps: seq<Step>, i: nat)
    requires i < |Exec(START, steps).sender.rows| && Exec(START, steps).sender.rows[i].delivered
    ensures Exec(START, steps).sender.rows[i].event in Exec(START, steps).controller
  {
    ExecKeeps(START, steps);
    var s := Exec(START, steps);
    assert s.sender.rows[i].event == s.sender.inserted[|s.sender.inserted| - |s.sender.rows| + i];
  }
}
