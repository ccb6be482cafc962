/** Readers of the ledger (dashboard/app.py, the collector loop;
    `NativeHistory.record` and `sequence`): fetch the events past the cursor in
    batches, project them one transaction each, crash and start again at any
    point. Nothing stops several readers from working on overlapping batches. */
module LedgerCollector {
  import opened Basics
  import opened Projection
  import opened ProjectionProofs

  /** A reader's batch: the ledger positions it still has to record. */
  datatype Batch = Batch(next: nat, end: nat)

  datatype System = System(
    ledger: seq<Event>,
    db: Db,
    cursor: nat,                 // native_job_cursors, 0 when there is none
    readers: map<nat, Batch>)

  datatype Step =
    | Append(event: Event)
    | Fetch(reader: nat)
    | Record(reader: nat)
    | Crash(reader: nat)

  const START := System([], EMPTY, 0, map[])

  /** SELECT ... WHERE sequence>? ORDER BY sequence: where that result begins. */
  function After(ledger: seq<Event>, cursor: nat): (k: nat)
    ensures k <= |ledger|
  {
    if ledger == [] || ledger[0].sequence > cursor then 0 else 1 + After(ledger[1..], cursor)
  }

  /** `record`: one transaction, all of it or none. */
  function Transact(db: Db, cursor: nat, e: Event): Option<(Db, nat)> {
    if cursor >= e.sequence then Some((db, cursor))
    else if Take(db, e).None? then None
    else Some((Take(db, e).value, e.sequence))
  }

  function RecordStep(s: System, r: nat): System {
    if r !in s.readers || s.readers[r].next >= s.readers[r].end || s.readers[r].next >= |s.ledger| then s
    else
      var batch := s.readers[r];
      var done := Transact(s.db, s.cursor, s.ledger[batch.next]);
      if done.None? then s.(readers := s.readers - {r})     // rolled back; the reader stops
      else s.(db := done.value.0, cursor := done.value.1,
              readers := s.readers[r := batch.(next := batch.next + 1)])
  }

  function Apply(s: System, step: Step): System {
    match step
    case Append(e) =>
      if e.sequence == 0 || (s.ledger != [] && e.sequence <= s.ledger[|s.ledger| - 1].sequence) then s
      else s.(ledger := s.ledger + [e])
    case Fetch(r) =>
      var from := After(s.ledger, s.cursor);
      s.(readers := s.readers[r := Batch(from, Min(from + 200, |s.ledger|))])
    case Record(r) => RecordStep(s, r)
    case Crash(r) => s.(readers := s.readers - {r})
  }

  function Exec(s: System, steps: seq<Step>): System
    decreases |steps|
  {
    if steps == [] then s else Exec(Apply(s, steps[0]), steps[1..])
  }

  /** What a fetch gives a reader: the next events after the cursor as the ledger then was, in
      order, two hundred or all there are. */
  lemma {:induction false} FetchMeans(s: System, r: nat)
    ensures
      var later := Apply(s, Fetch(r));
      && later == s.(readers := later.readers) && r in later.readers
      && var batch := later.readers[r];
         && batch.next == After(s.ledger, s.cursor)
         && batch.end == if |s.ledger| < batch.next + 200 then |s.ledger| else batch.next + 200
  {
  }

  // ---- the invariant -------------------------------------------------------------

  ghost predicate Ordered(ledger: seq<Event>) {
    && (forall i | 0 <= i < |ledger| :: ledger[i].sequence > 0)
    && (forall i, j | 0 <= i < j < |ledger| :: ledger[i].sequence < ledger[j].sequence)
  }

  /** The first `k` events have been projected, and the cursor says so. */
  ghost predicate At(s: System, k: nat) {
    && k <= |s.ledger|
    && Replay(EMPTY, s.ledger[..k]) == Some(s.db)
    && s.cursor == (if k == 0 then 0 else s.ledger[k - 1].sequence)
  }

  ghost predicate Inv(s: System, k: nat) {
    && Ordered(s.ledger) && At(s, k)
    && forall r | r in s.readers :: s.readers[r].next <= k
  }

  lemma {:induction false} AfterIsCount(ledger: seq<Event>, cursor: nat, k: nat)
    requires Ordered(ledger) && k <= |ledger|
    requires forall i | 0 <= i < k :: ledger[i].sequence <= cursor
    requires k < |ledger| ==> ledger[k].sequence > cursor
    ensures After(ledger, cursor) == k
    decreases |ledger|
  {
    if k == 0 {
    } else {
      AfterIsCount(ledger[1..], cursor, k - 1);
    }
  }

  lemma {:induction false} ReplayOne(db: Db, ledger: seq<Event>, e: Event)
    requires Replay(db, ledger).Some?
    ensures Replay(db, ledger + [e]) == Take(Replay(db, ledger).value, e)
    decreases |ledger|
  {
    if ledger == [] {
      assert [] + [e] == [e];
      if Take(db, e).Some? { assert Replay(Take(db, e).value, [e][1..]) == Take(db, e); }
    } else {
      assert (ledger + [e])[1..] == ledger[1..] + [e];
      ReplayOne(Take(db, ledger[0]).value, ledger[1..], e);
    }
  }

  lemma {:induction false} RecordKeeps(s: System, k: nat, r: nat) returns (k': nat)
    requires Inv(s, k)
    ensures Inv(RecordStep(s, r), k') && k <= k' && s.cursor <= RecordStep(s, r).cursor
  {
    k' := k;
    if r in s.readers && s.readers[r].next < s.readers[r].end && s.readers[r].next < |s.ledger| {
      var next := s.readers[r].next;
      var e := s.ledger[next];
      if next == k && Take(s.db, e).Some? {
        k' := k + 1;
        assert s.ledger[..k + 1] == s.ledger[..k] + [e];
        ReplayOne(EMPTY, s.ledger[..k], e);
      } else if next < k {
        assert e.sequence <= s.ledger[k - 1].sequence;
      }
    }
  }

  lemma {:induction false} ApplyKeeps(s: System, k: nat, step: Step) returns (k': nat)
    requires Inv(s, k)
    ensures Inv(Apply(s, step), k') && k <= k' && s.cursor <= Apply(s, step).cursor
  {
    hide Replay, Take;
    k' := k;
    match step {
      case Append(e) =>
        assert Apply(s, step).ledger[..k] == s.ledger[..k];
      case Fetch(r) =>
        AfterIsCount(s.ledger, s.cursor, k);
      case Record(r) =>
        k' := RecordKeeps(s, k, r);
      case Crash(r) =>
    }
  }

  lemma {:induction false} ExecKeeps(s: System, k: nat, steps: seq<Step>) returns (k': nat)
    requires Inv(s, k)
    ensures Inv(Exec(s, steps), k') && k <= k' && s.cursor <= Exec(s, steps).cursor
    decreases |steps|
  {
    k' := k;
    if steps == [] {
    } else {
      var next := ApplyKeeps(s, k, steps[0]);
      k' := ExecKeeps(Apply(s, steps[0]), next, steps[1..]);
    }
  }

  // ---- main results -----------------------------------------------------------------

  /** Exactly once: in every run, whatever readers crash, overlap or repeat, the
      history tables are the projection of the ledger up to the cursor, each
      event once and in order. */
  lemma {:induction false} ExactlyOnce(steps: seq<Step>)
    ensures var s := Exec(START, steps);
            Replay(EMPTY, s.ledger[..After(s.ledger, s.cursor)]) == Some(s.db)
  {
    var k := ExecKeeps(START, 0, steps);
    var s := Exec(START, steps);
    AfterIsCount(s.ledger, s.cursor, k);
  }

  /** The cursor never goes back. */
  lemma {:induction false} CursorNeverFalls(before: seq<Step>, after: seq<Step>)
    ensures Exec(START, before).cursor <= Exec(Exec(START, before), after).cursor
  {
    var k := ExecKeeps(START, 0, before);
    var k' := ExecKeeps(Exec(START, before), k, after);
  }

  lemma {:induction false} BlockedRecord(s: System, k: nat, r: nat)
    requires Inv(s, k) && k < |s.ledger| && Take(s.db, s.ledger[k]).None?
    ensures var next := RecordStep(s, r);
            next.db == s.db && next.cursor == s.cursor && next.ledger == s.ledger
  {
    if r in s.readers && s.readers[r].next < s.readers[r].end && s.readers[r].next < k {
      var e := s.ledger[s.readers[r].next];
      assert e.sequence <= s.ledger[k - 1].sequence;
      assert Transact(s.db, s.cursor, e) == Some((s.db, s.cursor));
    }
  }

  lemma {:induction false} BlockedStep(s: System, k: nat, step: Step)
    requires Inv(s, k) && k < |s.ledger| && Take(s.db, s.ledger[k]).None?
    ensures var next := Apply(s, step);
            && next.db == s.db && next.cursor == s.cursor
            && k < |next.ledger| && next.ledger[k] == s.ledger[k] && Inv(next, k)
  {
    var k' := ApplyKeeps(s, k, step);
    if step.Record? { BlockedRecord(s, k, step.reader); }
    var next := Apply(s, step);
    assert next.db == s.db && next.cursor == s.cursor && s.ledger <= next.ledger;
    AfterIsCount(next.ledger, next.cursor, k);
    AfterIsCount(next.ledger, next.cursor, k');
  }

  /** An event the projection refuses is the end of the history: once the
      cursor stands before it, nothing is ever projected again. */
  lemma {:induction false} RefusalBlocks(s: System, k: nat, steps: seq<Step>)
    requires Inv(s, k) && k < |s.ledger| && Take(s.db, s.ledger[k]).None?
    ensures Exec(s, steps).db == s.db && Exec(s, steps).cursor == s.cursor
    decreases |steps|
  {
    if steps == [] {
    } else {
      BlockedStep(s, k, steps[0]);
      RefusalBlocks(Apply(s, steps[0]), k, steps[1..]);
    }
  }
}
