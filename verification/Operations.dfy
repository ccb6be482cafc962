/** The agent's idempotent operation table (agent/server.py `handle_verb`,
    `_forget_oldest`, `_carry_out`, `_answer`). Operations are objects: a
    worker thread keeps writing to one after the table has forgotten it. */
module Operations {
  import opened Basics

  datatype State = Running | Succeeded | Failed

  datatype Reply = Reply(handle: nat, state: State, result: Option<string>, error: Option<string>)

  datatype Refusal = NoKey | OtherVerb

  /** What a reader finds who looks at an operation at one instant. */
  datatype Moment = Moment(state: State, result: Option<string>, error: Option<string>)

  /** How the work ended comes with what it ended with. */
  predicate Whole(m: Moment) {
    (m.state == Succeeded ==> m.result.Some?) && (m.state == Failed ==> m.error.Some?)
  }

  class Operation {
    const handle: nat
    const verb: string
    const key: string
    var state: State
    var result: Option<string>
    var error: Option<string>
    ghost var past: seq<Moment>  // what it was at first and after each write, oldest first

    constructor (handle: nat, verb: string, key: string)
      ensures this.handle == handle && this.verb == verb && this.key == key
      ensures state == Running && result == None && error == None && past == [Now()]
    {
      this.handle, this.verb, this.key := handle, verb, key;
      state, result, error := Running, None, None;
      past := [Moment(Running, None, None)];
    }

    function Now(): Moment
      reads this
    {
      Moment(state, result, error)
    }

    /** A caller that reads `succeeded` or `failed` finds the value that goes
        with it whenever it looks, because the worker writes the value first. */
    ghost predicate Consistent()
      reads this
    {
      past != [] && past[|past| - 1] == Now() && forall k | 0 <= k < |past| :: Whole(past[k])
    }

    method WriteResult(value: string)
      requires Consistent() && state == Running
      modifies this`result, this`past
      ensures Consistent() && result == Some(value) && past == old(past) + [Now()]
    {
      result := Some(value);
      past := past + [Now()];
    }

    method WriteError(reason: string)
      requires Consistent() && state == Running
      modifies this`error, this`past
      ensures Consistent() && error == Some(reason) && past == old(past) + [Now()]
    {
      error := Some(reason);
      past := past + [Now()];
    }

    method WriteState(outcome: State)
      requires Consistent() && state == Running && outcome != Running
      requires if outcome == Succeeded then result.Some? else error.Some?
      modifies this`state, this`past
      ensures Consistent() && state == outcome && past == old(past) + [Now()]
    {
      state := outcome;
      past := past + [Now()];
    }

    /** `_carry_out`: the work gave a result, or was refused or failed. A reader finds
        the operation as it was, then running with its value, then ended with it. */
    method CarryOut(worked: Option<string>, reason: string)
      requires Consistent() && state == Running
      modifies this
      ensures Consistent()
      ensures worked.Some? ==>
                past == old(past) + [Moment(Running, worked, old(error)), Moment(Succeeded, worked, old(error))]
      ensures worked.None? ==>
                past == old(past)
                        + [Moment(Running, old(result), Some(reason)), Moment(Failed, old(result), Some(reason))]
    {
      if worked.Some? {
        WriteResult(worked.value);
        WriteState(Succeeded);
      } else {
        WriteError(reason);
        WriteState(Failed);
      }
    }

    /** `_answer` when nothing writes meanwhile. */
    method Answer() returns (reply: Reply)
      requires Consistent()
      ensures reply.handle == handle && reply.state == state && reply.result == result && reply.error == error
      ensures reply.state == Succeeded ==> reply.result.Some?
      ensures reply.state == Failed ==> reply.error.Some?
    {
      reply := Reply(handle, state, result, error);
    }
  }

  // ---- eviction ------------------------------------------------------------

  function States(ops: seq<Operation>): (s: seq<State>)
    reads ops
    ensures |s| == |ops| && forall i | 0 <= i < |ops| :: s[i] == ops[i].state
  {
    seq(|ops|, i requires 0 <= i < |ops| reads ops => ops[i].state)
  }

  lemma {:induction false} StatesWithout(ops: seq<Operation>, k: nat)
    requires k < |ops|
    ensures States(ops[..k] + ops[k + 1..]) == States(ops)[..k] + States(ops)[k + 1..]
  {
  }

  /** What is left of a table, oldest first, when its `excess` oldest finished
      entries are forgotten. */
  function Forget<T>(entries: seq<T>, states: seq<State>, excess: int): seq<T>
    requires |entries| == |states|
    decreases |entries|
  {
    if excess <= 0 || entries == [] then entries
    else if states[0] != Running then Forget(entries[1..], states[1..], excess - 1)
    else [entries[0]] + Forget(entries[1..], states[1..], excess)
  }

  function Finished(states: seq<State>): nat {
    if states == [] then 0 else (if states[0] != Running then 1 else 0) + Finished(states[1..])
  }

  /** Position of the oldest finished entry, or the length when there is none. */
  function Oldest(states: seq<State>): (k: nat)
    ensures k <= |states|
    ensures forall i | 0 <= i < k :: states[i] == Running
    ensures k < |states| ==> states[k] != Running
  {
    if states == [] || states[0] != Running then 0
    else
      var rest := Oldest(states[1..]);
      assert forall i | 1 <= i < |states| :: states[i] == states[1..][i - 1];
      1 + rest
  }

  lemma {:induction false} PastRunning<T>(entries: seq<T>, states: seq<State>, excess: int)
    requires |entries| == |states| && entries != [] && states[0] == Running
    ensures Forget(entries, states, excess) == [entries[0]] + Forget(entries[1..], states[1..], excess)
  {
    assert [entries[0]] + entries[1..] == entries;
  }

  lemma {:induction false} OldestPastRunning(states: seq<State>)
    requires states != [] && states[0] == Running
    ensures Oldest(states) == 1 + Oldest(states[1..])
  {
  }

  lemma {:induction false} FirstIsOldest<T>(entries: seq<T>, states: seq<State>, excess: int)
    requires |entries| == |states| && excess > 0 && entries != [] && states[0] != Running
    ensures Oldest(states) == 0
    ensures Forget(entries, states, excess)
        == Forget(entries[..0] + entries[1..], states[..0] + states[1..], excess - 1)
  {
    assert entries[..0] + entries[1..] == entries[1..];
    assert states[..0] + states[1..] == states[1..];
  }

  lemma {:induction false} NothingToForget<T>(entries: seq<T>, states: seq<State>, excess: int)
    requires |entries| == |states| == 0
    ensures Oldest(states) == 0 && Forget(entries, states, excess) == entries
  {
  }

  /** Deleting the oldest finished entry is one unit of forgetting. */
  lemma {:induction false} ForgetOne<T>(entries: seq<T>, states: seq<State>, excess: int)
    requires |entries| == |states| && excess > 0
    ensures var k := Oldest(states);
            Forget(entries, states, excess) ==
            if k == |states| then entries
            else Forget(entries[..k] + entries[k + 1..], states[..k] + states[k + 1..], excess - 1)
    decreases |entries|
  {
    hide Forget, Oldest;
    if entries == [] {
      NothingToForget(entries, states, excess);
    } else if states[0] != Running {
      FirstIsOldest(entries, states, excess);
    } else {
      var k := Oldest(states);
      OldestPastRunning(states);
      PastRunning(entries, states, excess);
      ForgetOne(entries[1..], states[1..], excess);
      if k < |states| {
        HeadStays(entries, k);
        HeadStays(states, k);
        PastRunning(entries[..k] + entries[k + 1..], states[..k] + states[k + 1..], excess - 1);
      } else {
        assert [entries[0]] + entries[1..] == entries;
      }
    }
  }

  lemma {:induction false} HeadStays<T>(s: seq<T>, k: nat)
    requires 0 < k < |s|
    ensures (s[..k] + s[k + 1..])[0] == s[0]
    ensures (s[..k] + s[k + 1..])[1..] == s[1..][..k - 1] + s[1..][k..]
  {
  }

  /** What forgetting means: an order-preserving selection that keeps every
      running entry, drops exactly as many finished ones as are asked for or
      exist, and drops a finished entry only together with every older
      finished one. */
  ghost predicate Selects<T>(entries: seq<T>, states: seq<State>, keep: seq<bool>) {
    && |entries| == |states| == |keep|
    && (forall i | 0 <= i < |states| && states[i] == Running :: keep[i])
    && (forall i, j | 0 <= i < j < |states| && states[i] != Running && !keep[j] :: !keep[i])
  }

  function Kept<T>(entries: seq<T>, keep: seq<bool>): seq<T>
    requires |entries| == |keep|
  {
    if entries == [] then []
    else (if keep[0] then [entries[0]] else []) + Kept(entries[1..], keep[1..])
  }

  lemma {:induction false} KeptAll<T>(entries: seq<T>)
    ensures Kept(entries, seq(|entries|, _ => true)) == entries
    decreases |entries|
  {
    if entries == [] {
    } else {
      assert seq(|entries|, _ => true)[1..] == seq(|entries| - 1, _ => true);
      KeptAll(entries[1..]);
    }
  }

  lemma {:induction false} ForgetSelects<T>(entries: seq<T>, states: seq<State>, excess: int)
    returns (keep: seq<bool>)
    requires |entries| == |states|
    ensures Selects(entries, states, keep)
    ensures Forget(entries, states, excess) == Kept(entries, keep)
    ensures |Forget(entries, states, excess)| == |entries| - Min(Max(0, excess), Finished(states))
    decreases |entries|
  {
    if excess <= 0 || entries == [] {
      keep := seq(|entries|, _ => true);
      KeptAll(entries);
    } else {
      var finished := states[0] != Running;
      var rest := ForgetSelects(entries[1..], states[1..], if finished then excess - 1 else excess);
      keep := [!finished] + rest;
      assert keep[1..] == rest;
      assert forall i | 1 <= i < |states| :: states[i] == states[1..][i - 1] && keep[i] == rest[i - 1];
    }
  }

  lemma {:induction false} NoneFinished(states: seq<State>)
    ensures Finished(states) == 0 <==> forall i | 0 <= i < |states| :: states[i] == Running
    decreases |states|
  {
    if states == [] {
    } else {
      NoneFinished(states[1..]);
      assert forall i | 1 <= i < |states| :: states[i] == states[1..][i - 1];
    }
  }

  lemma {:induction false} FinishedBound(states: seq<State>)
    ensures Finished(states) <= |states|
    decreases |states|
  {
    if states == [] {
    } else {
      FinishedBound(states[1..]);
    }
  }

  /** After eviction the table is within its bound or holds only running
      operations. */
  lemma {:induction false} ForgetBound<T>(entries: seq<T>, states: seq<State>, limit: nat)
    returns (keep: seq<bool>)
    requires |entries| == |states|
    ensures Selects(entries, states, keep)
    ensures Forget(entries, states, |entries| - limit) == Kept(entries, keep)
    ensures |Kept(entries, keep)| <= limit
            || forall i | 0 <= i < |states| && keep[i] :: states[i] == Running
    ensures |entries| <= limit ==> Kept(entries, keep) == entries
  {
    keep := ForgetSelects(entries, states, |entries| - limit);
    if |entries| - limit > Finished(states) {
      KeptRunning(entries, states, keep);
    }
  }

  lemma {:induction false} KeptRunning<T>(entries: seq<T>, states: seq<State>, keep: seq<bool>)
    requires Selects(entries, states, keep) && |Kept(entries, keep)| == |entries| - Finished(states)
    ensures forall i | 0 <= i < |states| :: keep[i] <==> states[i] == Running
    decreases |entries|
  {
    KeptAtLeast(entries, states, keep);
    if entries == [] {
    } else {
      KeptAtLeast(entries[1..], states[1..], keep[1..]);
      KeptRunning(entries[1..], states[1..], keep[1..]);
      assert forall i | 1 <= i < |states| :: states[i] == states[1..][i - 1] && keep[i] == keep[1..][i - 1];
    }
  }

  lemma {:induction false} KeptAtLeast<T>(entries: seq<T>, states: seq<State>, keep: seq<bool>)
    requires |entries| == |states| == |keep|
    requires forall i | 0 <= i < |states| && states[i] == Running :: keep[i]
    ensures |Kept(entries, keep)| >= |entries| - Finished(states)
    decreases |entries|
  {
    if entries == [] {
    } else {
      KeptAtLeast(entries[1..], states[1..], keep[1..]);
    }
  }

  const MAX_OPERATIONS := 1000

  class AgentServer {
    var operations: seq<Operation>      // in insertion order, one per key
    var nextHandle: nat

    constructor ()
      ensures operations == [] && nextHandle == 0
    {
      operations, nextHandle := [], 0;
    }

    ghost predicate Valid()
      reads this, operations
    {
      && DistinctKeys(operations) && DistinctHandles(operations)
      && (forall i | 0 <= i < |operations| :: operations[i].handle < nextHandle)
    }

    /** The walk of `_forget_oldest` to the first entry that has finished. */
    method FirstFinished() returns (k: nat)
      ensures k == Oldest(States(operations))
    {
      k := 0;
      while k < |operations| && operations[k].state == Running
        invariant 0 <= k <= |operations|
        invariant forall i | 0 <= i < k :: operations[i].state == Running
      {
        k := k + 1;
      }
    }

    /** `_forget_oldest`, while no worker finishes. */
    method ForgetOldest()
      modifies this`operations
      ensures operations == Forget(old(operations), old(States(operations)), |old(operations)| - MAX_OPERATIONS)
    {
      while |operations| > MAX_OPERATIONS
        invariant Forget(old(operations), old(States(operations)), |old(operations)| - MAX_OPERATIONS)
                  == Forget(operations, States(operations), |operations| - MAX_OPERATIONS)
        decreases |operations|
      {
        hide Forget, Oldest;
        ForgetOne(operations, States(operations), |operations| - MAX_OPERATIONS);
        var k := FirstFinished();
        if k == |operations| {
          return;
        }
        StatesWithout(operations, k);
        operations := operations[..k] + operations[k + 1..];
      }
    }

    /** The part of `handle_verb` under the lock: the remembered operation for
        this key, or a new one entered into the table. */
    method Enter(key: string, verb: string) returns (op: Operation?, isNew: bool, refusal: Option<Refusal>)
      requires Valid()
      modifies this
      ensures Valid()
      ensures key == "" || |key| > 128 <==> refusal == Some(NoKey)
      ensures refusal.Some? ==> op == null && operations == old(operations)
      ensures refusal == Some(OtherVerb) ==>
                exists i | 0 <= i < |old(operations)| ::
                  old(operations)[i].key == key && old(operations)[i].verb != verb
      ensures refusal.None? && !isNew ==>
                operations == old(operations) && op != null && op in operations && op.key == key && op.verb == verb
      ensures refusal.None? && isNew ==>
                && op != null && fresh(op) && op.key == key && op.verb == verb && op.state == Running
                && (forall i | 0 <= i < |old(operations)| :: old(operations)[i].key != key)
                && (forall i | 0 <= i < |old(operations)| :: old(operations)[i].handle != op.handle)
                && operations == Forget<Operation>(old(operations) + [op], old(States(operations)) + [Running],
                                        |old(operations)| + 1 - MAX_OPERATIONS)
    {
      hide Forget, Kept, Finished;
      op, isNew, refusal := null, false, None;
      if key == "" || |key| > 128 {
        return null, false, Some(NoKey);
      }
      for i := 0 to |operations|
        invariant forall j | 0 <= j < i :: operations[j].key != key
      {
        if operations[i].key == key {
          if operations[i].verb != verb {
            return null, false, Some(OtherVerb);
          }
          return operations[i], false, None;
        }
      }
      var made := new Operation(nextHandle, verb, key);
      nextHandle := nextHandle + 1;
      ghost var before := operations;
      operations := operations + [made];
      assert States(operations) == old(States(before)) + [Running];
      ghost var full, states := operations, States(operations);
      assert full == before + [made] && forall i | 0 <= i < |full| :: full[i].handle < nextHandle;
      ForgetOldest();
      ghost var keep := ForgetSelects(full, states, |full| - MAX_OPERATIONS);
      KeptDistinct(full, keep);
      assert operations == Kept(full, keep);
      assert before == old(operations) && full == old(operations) + [made];
      assert states == old(States(operations)) + [Running];
      assert forall i | 0 <= i < |operations| :: operations[i] in full;
      return made, true, None;
    }
  }

  predicate DistinctHandles(ops: seq<Operation>) {
    forall i, j | 0 <= i < j < |ops| :: ops[i].handle != ops[j].handle
  }

  predicate DistinctKeys(ops: seq<Operation>) {
    forall i, j | 0 <= i < j < |ops| :: ops[i].key != ops[j].key
  }

  /** A selection keeps distinct keys and handles distinct. */
  lemma {:induction false} KeptDistinct(entries: seq<Operation>, keep: seq<bool>)
    requires |entries| == |keep| && DistinctKeys(entries) && DistinctHandles(entries)
    ensures forall x | x in Kept(entries, keep) :: x in entries
    ensures DistinctKeys(Kept(entries, keep)) && DistinctHandles(Kept(entries, keep))
    decreases |entries|
  {
    if entries == [] {
    } else {
      KeptDistinct(entries[1..], keep[1..]);
      var rest := Kept(entries[1..], keep[1..]);
      forall x | x in rest ensures x.key != entries[0].key && x.handle != entries[0].handle {
        var j :| 0 <= j < |entries[1..]| && entries[1..][j] == x;
        assert entries[j + 1] == x;
      }
      assert Kept(entries, keep) == if keep[0] then [entries[0]] + rest else rest;
    }
  }
}
