/** Runs on which the promises about sending alarms fail: a raise sent after its alarm was
    acknowledged, a raise lost with the process, a resolve silenced by the next outage.
    When they fail exactly is said in AcknowledgedAlarms. */
module RelayFailures {
  import opened Basics
  import opened AlarmDelivery
  import opened AcknowledgedRows
  import opened AlarmRelay
  import opened RelayedAlarms
  import opened AcknowledgedAlarms
  import Alarms
  import Book = AlarmBook
  import Acknowledgements
  import DeliveryRuns

  const K := Alarms.MonitorKey("github", true)
  const NEVER: map<Alarms.Key, Alarms.Row> := map[]

  function Reading(readable: bool, now: real): Alarms.Input {
    Alarms.QueueRead("github", readable, 120, now)
  }

  function Watched(since: int, raised: Option<int>, acked: Option<string>): map<Alarms.Key, Alarms.Row> {
    map[K := Alarms.Row(Alarms.MonitorBlind, since, raised, acked, Alarms.NOTHING)]
  }

  const RAISE := Book.Told(K, Alarms.Raised(Alarms.MonitorBlind, 0, 120))
  const RESOLVE := Book.Told(K, Alarms.Resolved(Alarms.MonitorBlind, 0, 120, 130))

  function AckTold(since: int): Book.Told {
    Book.Told(K, Alarms.Acknowledged(Alarms.MonitorBlind, since, "admin"))
  }

  lemma {:induction false} TellsOne(told: seq<Book.Told>, key: Alarms.Key)
    requires |told| <= 1
    ensures Book.EventsOf(told, key) == if told != [] && told[0].key == key then [told[0].event] else []
  {
    if told != [] {
      assert told == [] + [told[0]];
      Book.EventsOfOne([], told[0], key);
    }
  }

  /** A reading of the queue, or an acknowledgement of K, changes K alone. */
  lemma {:induction false} OnlyK(
    book: map<Alarms.Key, Alarms.Row>, later: map<Alarms.Key, Alarms.Row>, told: seq<Book.Told>, input: Alarms.Input)
    requires book.Keys <= {K} && later.Keys <= {K} && |told| <= 1 && (told != [] ==> told[0].key == K)
    requires (input.QueueRead? && input.forge == "github") || (input.Acknowledge? && input.key == K)
    requires Alarms.Outcome(Book.Get(later, K), if told == [] then [] else [told[0].event])
          == Alarms.Step(Book.Get(book, K), K, input)
    ensures Book.Stepped(book, later, told, input)
  {
    forall key ensures Book.At(later, told, key) == Alarms.Step(Book.Get(book, key), key, input) {
      TellsOne(told, key);
    }
  }

  // ---- the raise ------------------------------------------------------------------------------

  const BLIND := Commit(0, Reading(false, 0.0), Watched(0, None, None), [])
  const RAISED := Commit(0, Reading(false, 120.0), Watched(0, Some(120), None), [RAISE])
  const ACKED := Commit(1, Alarms.Acknowledge(K, "admin", 125.0), Watched(0, Some(120), Some("admin")), [AckTold(0)])

  function Raising(): System {
    System(Watched(0, Some(120), None), map[0 := [RAISE]], EMPTY, NoPass, [])
  }

  lemma {:induction false} RaiseCommitted()
    ensures After(START, [BLIND, RAISED]) == Raising()
  {
    OnlyK(map[], Watched(0, None, None), [], BLIND.input);
    OnlyK(Watched(0, None, None), Watched(0, Some(120), None), [RAISE], RAISED.input);
    var s1 := Next(START, BLIND);
    assert Commits(START, BLIND) && s1 == System(Watched(0, None, None), map[], EMPTY, NoPass, []);
    assert Commits(s1, RAISED) && Next(s1, RAISED) == Raising();
    assert [BLIND, RAISED][1..] == [RAISED] && [RAISED][1..] == [];
    assert After(START, [BLIND, RAISED]) == After(s1, [RAISED]) == After(Next(s1, RAISED), []);
  }

  function RaiseRow(state: State, doneAt: Option<int>, error: Option<string>): Row {
    Row(Alarm(K), "raised", Some(120), false, state, 0, 120, doneAt, error)
  }

  lemma {:induction false} OneIsDue(row: Row, at: real)
    requires row.state == Pending && row.nextAt <= Stamp(at)
    ensures DueNow([row], at) == [0]
  {
    assert [row][..0] == [];
    assert Due([row], Stamp(at)) == Due([], Stamp(at)) + [0];
  }

  lemma {:induction false} OneIsABatch(rows: seq<Row>)
    ensures Batches(rows, [0], false) == [[0]]
  {
    assert [0][..0] == [];
    assert Fill(rows, [0], false) == Add(Fill(rows, [], false), 0, false) == Batching([[0]], []);
  }

  lemma {:induction false} OneBatchDue(row: Row, at: real)
    requires row.state == Pending && row.nextAt <= Stamp(at)
    ensures BatchesOf(Box([row], []), false, at) == [[0]]
  {
    hide DueNow, Batches;
    OneIsDue(row, at);
    OneIsABatch([row]);
  }

  lemma {:induction false} ThreeSteps(s: System, a: Step, b: Step, c: Step)
    ensures After(s, [a, b, c]) == Next(Next(Next(s, a), b), c)
  {
    hide Next;
    assert [a, b, c][1..] == [b, c] && [b, c][1..] == [c] && [c][1..] == [];
    var s1 := Next(s, a);
    assert After(s, [a, b, c]) == After(s1, [b, c]) == After(Next(s1, b), [c]) == After(Next(Next(s1, b), c), []);
  }

  function AckedUntold(): System {
    System(ACKED.book, map[0 := [RAISE], 1 := [AckTold(0)]], EMPTY, NoPass, [])
  }

  lemma {:induction false} AckCommitted()
    ensures Acknowledges(Raising(), ACKED, K) && Next(Raising(), ACKED) == AckedUntold()
  {
    OnlyK(Raising().book, ACKED.book, ACKED.told, ACKED.input);
    assert Acknowledged([], Alarm(K), 125.0) == [];
  }

  lemma {:induction false} LateTold()
    ensures
      Next(AckedUntold(), Tell(0, true)) ==
        System(ACKED.book, map[1 := [AckTold(0)]], Box([RaiseRow(Pending, None, None)], []), NoPass, [])
  {
    assert !Holds([], Alarm(K), "raised", Some(120));
    assert AckedUntold().calls - {0} == map[1 := [AckTold(0)]];
  }

  lemma {:induction false} OneRowIsPosted(s: System, at: real)
    requires |s.box.rows| == 1 && s.box.posts == [] && s.box.rows[0].state == Pending
    requires s.box.rows[0].nextAt <= Stamp(at) && s.delivery == NoPass && s.sent == []
    ensures
      var end := Next(Next(s, Begin(Usable(false), at)), Request);
      end.box == s.box && end.sent == [[0]]
  {
    assert s.box == Box([s.box.rows[0]], []);
    OneBatchDue(s.box.rows[0], at);
  }

  /** A raise is sent after its alarm was acknowledged although it had been raised and no
      pass was under way: it was committed, and its call had not come to tell it. */
  lemma {:induction false} RaiseSentAfterAcknowledgement()
    ensures
      var before := After(START, [BLIND, RAISED]);
      var s := Next(before, ACKED);
      var rest := [Tell(0, true), Begin(Usable(false), 130.0), Request];
      && Acknowledges(before, ACKED, K) && Acknowledgements.Final(Book.Get(before.book, K)) && before.delivery == NoPass
      && After(s, rest).box.rows == [RaiseRow(Pending, None, None)]
      && s.sent == [] && After(s, rest).sent == [[0]]
      && NoticePosted(s, rest, K, "raised")
  {
    hide After, Next, Acknowledges;
    RaiseCommitted();
    AckCommitted();
    LateTold();
    var s := AckedUntold();
    var rest := [Tell(0, true), Begin(Usable(false), 130.0), Request];
    OneRowIsPosted(Next(s, rest[0]), 130.0);
    ThreeSteps(s, rest[0], rest[1], rest[2]);
    var end := After(s, rest);
    assert 0 in end.sent[0];
    assert PostsRow(s, rest, 0) && IsNotice(end.box.rows[0], K, "raised");
  }

  /** A raise is lost for ever, while its alarm lasts, when the process dies between the
      commit and the telling. */
  lemma {:induction false} RaiseLostWithTheProcess(rest: seq<Step>)
    requires Acknowledgements.Alive(Book.Get(Raising().book, K), K, Inputs(Next(Raising(), Die), rest))
    ensures After(START, [BLIND, RAISED]) == Raising() && Raising().book[K].raised == Some(120)
    ensures !Holds(After(Next(Raising(), Die), rest).box.rows, Alarm(K), "raised", Some(120))
  {
    hide After;
    RaiseCommitted();
    StartHolds();
    AfterKeeps(START, [BLIND, RAISED]);
    DeathLosesRaise(Raising(), rest, K, 120);
  }

  // ---- the resolve ------------------------------------------------------------------------------

  const SEEN := Commit(2, Reading(true, 130.0), NEVER, [RESOLVE])
  const AGAIN := Commit(3, Reading(false, 140.0), Watched(140, None, None), [])
  const ACKED_AGAIN :=
    Commit(4, Alarms.Acknowledge(K, "admin", 145.0), Watched(140, None, Some("admin")), [AckTold(140)])

  function ResolveRow(state: State, doneAt: Option<int>, error: Option<string>): Row {
    Row(Alarm(K), "resolved", Some(120), false, state, 0, 130, doneAt, error)
  }

  function Hushing(): System {
    System(Watched(140, None, None), map[1 := [AckTold(0)]],
           Box([RaiseRow(Skipped, Some(125), Some("acknowledged")), ResolveRow(Pending, None, None)], []), NoPass, [])
  }

  lemma {:induction false} RaiseAcknowledged()
    ensures
      After(Raising(), [Tell(0, true), ACKED]) ==
        System(ACKED.book, map[1 := [AckTold(0)]],
               Box([RaiseRow(Skipped, Some(125), Some("acknowledged"))], []), NoPass, [])
  {
    var s0, row := Raising(), RaiseRow(Pending, None, None);
    var s1 := Next(s0, Tell(0, true));
    assert s1 == System(s0.book, map[], Box([row], []), NoPass, []) by {
      assert !Holds([], Alarm(K), "raised", Some(120));
      assert s0.calls - {0} == map[];
    }
    OnlyK(s1.book, ACKED.book, ACKED.told, ACKED.input);
    assert Acknowledged([row], Alarm(K), 125.0) == [RaiseRow(Skipped, Some(125), Some("acknowledged"))];
    var s2 := Next(s1, ACKED);
    assert [Tell(0, true), ACKED][1..] == [ACKED] && [ACKED][1..] == [];
    assert After(s0, [Tell(0, true), ACKED]) == After(s1, [ACKED]) == After(s2, []);
  }

  lemma {:induction false} ResolveWaits(s: System)
    requires s == System(ACKED.book, map[1 := [AckTold(0)]],
                         Box([RaiseRow(Skipped, Some(125), Some("acknowledged"))], []), NoPass, [])
    ensures After(s, [SEEN, Tell(2, true), AGAIN]) == Hushing()
  {
    OnlyK(s.book, SEEN.book, SEEN.told, SEEN.input);
    var s1 := Next(s, SEEN);
    assert s1 == System(NEVER, map[1 := [AckTold(0)], 2 := [RESOLVE]], s.box, NoPass, []);
    var s2 := Next(s1, Tell(2, true));
    assert s2 == System(NEVER, map[1 := [AckTold(0)]], Hushing().box, NoPass, []) by {
      assert !Holds(s1.box.rows, Alarm(K), "resolved", Some(120));
      assert s1.calls - {2} == map[1 := [AckTold(0)]];
    }
    OnlyK(s2.book, AGAIN.book, AGAIN.told, AGAIN.input);
    ThreeSteps(s, SEEN, Tell(2, true), AGAIN);
  }

  lemma {:induction false} AckSkips(s: System, step: Step, key: Alarms.Key)
    requires Acknowledges(s, step, key)
    ensures
      var later := Next(s, step);
      later.box.rows == Acknowledged(s.box.rows, Alarm(key), step.input.now) && later.delivery == s.delivery
  {
    hide Book.Stepped, Acknowledged;
  }

  lemma {:induction false} AgainCommits()
    ensures Acknowledges(Hushing(), ACKED_AGAIN, K)
  {
    assert Watched(140, None, None).Keys == {K} && Watched(140, None, Some("admin")).Keys == {K};
    OnlyK(Watched(140, None, None), Watched(140, None, Some("admin")), [AckTold(140)], ACKED_AGAIN.input);
  }

  lemma {:induction false} AcknowledgedAgain()
    ensures Acknowledges(Hushing(), ACKED_AGAIN, K)
    ensures
      var s := Next(Hushing(), ACKED_AGAIN);
      && |s.box.rows| == 2 && s.delivery == NoPass
      && s.box.rows[1] == ResolveRow(Skipped, Some(145), Some("acknowledged"))
  {
    hide Next, Acknowledges;
    AgainCommits();
    AckSkips(Hushing(), ACKED_AGAIN, K);
  }

  /** The resolve of an acknowledged alarm is never sent, whatever follows, when it still
      waits as the next outage is acknowledged. */
  lemma {:induction false} ResolveHushedByNextOutage(rest: seq<Step>)
    ensures After(START, [BLIND, RAISED]) == Raising()
    ensures After(After(Raising(), [Tell(0, true), ACKED]), [SEEN, Tell(2, true), AGAIN]) == Hushing()
    ensures
      var s := Next(Hushing(), ACKED_AGAIN);
      && Acknowledges(Hushing(), ACKED_AGAIN, K)
      && |s.box.rows| == 2 && IsRowOf(s.box.rows[1], K, "resolved", 120)
      && |After(s, rest).box.rows| > 1 && After(s, rest).box.rows[1].state == Skipped && !PostsRow(s, rest, 1)
  {
    hide After, Next, Acknowledges, RelayInv, PostsRow;
    RaiseCommitted();
    RaiseAcknowledged();
    var acked := After(Raising(), [Tell(0, true), ACKED]);
    ResolveWaits(acked);
    StartHolds();
    AfterKeeps(START, [BLIND, RAISED]);
    AfterKeeps(Raising(), [Tell(0, true), ACKED]);
    AfterKeeps(acked, [SEEN, Tell(2, true), AGAIN]);
    NextKeeps(Hushing(), ACKED_AGAIN);
    AcknowledgedAgain();
    IdleStays(Next(Hushing(), ACKED_AGAIN), rest, 1);
  }
}
