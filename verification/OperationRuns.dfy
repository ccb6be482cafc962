/** Concurrent requests and workers over the operation table, interleaved at
    the grain of single reads and writes: workers write outcomes without the
    table's lock, so they may do so between two looks of an eviction pass, and
    between the reads of a reply. `limit` is MAX_OPERATIONS. */
module OperationRuns {
  import opened Basics
  import opened Operations

  datatype Op = Op(key: string, verb: string, state: State, result: Option<string>, error: Option<string>)

  /** The lock: free, or held by the request that inserted `owner` and is now
      evicting. It has looked at the first `pos` entries in this pass; `seen` is
      what every operation was when the pass began. */
  datatype Lock = Free | Evicting(owner: nat, pos: nat, seen: seq<Op>)

  /** A reply being put together: the state is read first, the values after. */
  datatype Answering = Answering(handle: nat, state: State, done: bool, result: Option<string>, error: Option<string>)

  datatype Server = Server(
    limit: nat,
    ops: seq<Op>,               // every operation ever made; a handle is its position
    table: seq<nat>,            // handles still remembered, oldest first
    lock: Lock,
    unstarted: set<nat>,        // entered, thread not yet started
    launches: seq<nat>,         // threads started, in order
    replies: map<nat, Answering>)

  datatype Step =
    | Enter(key: string, verb: string)
    | Look
    | Launch(handle: nat)
    | WriteValue(handle: nat, ok: bool, value: string)
    | WriteState(handle: nat)
    | ReadState(reply: nat, handle: nat)
    | ReadValues(reply: nat)

  function Start(limit: nat): Server {
    Server(limit, [], [], Free, {}, [], map[])
  }

  predicate Known(s: Server, key: string) {
    exists i | 0 <= i < |s.table| && s.table[i] < |s.ops| :: s.ops[s.table[i]].key == key
  }

  function EnterStep(s: Server, key: string, verb: string): Server {
    if s.lock != Free || key == "" || |key| > 128 || Known(s, key) then s
    else
      var handle := |s.ops|;
      var ops := s.ops + [Op(key, verb, Running, None, None)];
      s.(ops := ops, table := s.table + [handle], unstarted := s.unstarted + {handle},
         lock := Evicting(handle, 0, ops))
  }

  function Without(table: seq<nat>, k: nat): seq<nat>
    requires k < |table|
  {
    table[..k] + table[k + 1..]
  }

  /** One turn of `_forget_oldest`: leave when within bounds or when the pass
      found nothing finished, else delete this entry and begin again, or go on. */
  function LookStep(s: Server): Server {
    match s.lock
    case Free => s
    case Evicting(owner, pos, seen) =>
      if |s.table| <= s.limit || pos >= |s.table| then s.(lock := Free)
      else if s.table[pos] < |s.ops| && s.ops[s.table[pos]].state != Running
      then s.(table := Without(s.table, pos), lock := Evicting(owner, 0, s.ops))
      else s.(lock := Evicting(owner, pos + 1, seen))
  }

  /** The worker of a started operation, which has not yet written its state. */
  predicate Working(s: Server, handle: nat) {
    handle < |s.ops| && handle in s.launches && s.ops[handle].state == Running
  }

  function Apply(s: Server, step: Step): Server {
    match step
    case Enter(key, verb) => EnterStep(s, key, verb)
    case Look => LookStep(s)
    case Launch(handle) =>
      if handle !in s.unstarted || (s.lock.Evicting? && s.lock.owner == handle) then s
      else s.(unstarted := s.unstarted - {handle}, launches := s.launches + [handle])
    case WriteValue(handle, ok, value) =>
      if !Working(s, handle) || s.ops[handle].result.Some? || s.ops[handle].error.Some? then s
      else s.(ops := s.ops[handle := if ok then s.ops[handle].(result := Some(value))
                                     else s.ops[handle].(error := Some(value))])
    case WriteState(handle) =>
      if !Working(s, handle) || (s.ops[handle].result.None? && s.ops[handle].error.None?) then s
      else s.(ops := s.ops[handle := s.ops[handle].(state :=
                if s.ops[handle].result.Some? then Succeeded else Failed)])
    case ReadState(reply, handle) =>
      if reply in s.replies || handle >= |s.ops| then s
      else s.(replies := s.replies[reply := Answering(handle, s.ops[handle].state, false, None, None)])
    case ReadValues(reply) =>
      if reply !in s.replies || s.replies[reply].done || s.replies[reply].handle >= |s.ops| then s
      else
        var op := s.ops[s.replies[reply].handle];
        s.(replies := s.replies[reply := s.replies[reply].(done := true, result := op.result, error := op.error)])
  }

  function Exec(s: Server, steps: seq<Step>): Server
    decreases |steps|
  {
    if steps == [] then s else Exec(Apply(s, steps[0]), steps[1..])
  }

  // ---- the invariant ----------------------------------------------------------------

  ghost predicate Increasing(table: seq<nat>, bound: nat) {
    && (forall i | 0 <= i < |table| :: table[i] < bound)
    && (forall i, j | 0 <= i < j < |table| :: table[i] < table[j])
  }

  ghost predicate KeysDistinct(table: seq<nat>, ops: seq<Op>) {
    forall i, j | 0 <= i < j < |table| && table[i] < |ops| && table[j] < |ops| ::
      ops[table[i]].key != ops[table[j]].key
  }

  ghost predicate TableInv(s: Server) {
    Increasing(s.table, |s.ops|) && KeysDistinct(s.table, s.ops)
  }

  ghost predicate Once(launches: seq<nat>) {
    forall i, j | 0 <= i < j < |launches| :: launches[i] != launches[j]
  }

  /** Every operation is either waiting for its one start or has had it. */
  ghost predicate LaunchInv(s: Server) {
    && Once(s.launches)
    && (forall h: nat | h < |s.ops| :: h in s.launches <==> h !in s.unstarted)
    && (forall h | h in s.unstarted :: h < |s.ops|)
    && (forall h | h in s.launches :: h < |s.ops|)
  }

  ghost predicate OpInv(op: Op) {
    && (op.state == Succeeded ==> op.result.Some?)
    && (op.state == Failed ==> op.error.Some?)
    && !(op.result.Some? && op.error.Some?)
  }

  /** Later states of an operation: identity fixed, an outcome never undone. */
  ghost predicate Follows(before: Op, after: Op) {
    && after.key == before.key && after.verb == before.verb
    && (before.state != Running ==> after == before)
    && (before.result.Some? ==> after.result == before.result)
    && (before.error.Some? ==> after.error == before.error)
  }

  ghost predicate Grown(before: seq<Op>, after: seq<Op>) {
    |before| <= |after| && forall h | 0 <= h < |before| :: Follows(before[h], after[h])
  }

  ghost predicate LockInv(s: Server) {
    s.lock.Evicting? ==>
      && Grown(s.lock.seen, s.ops) && |s.lock.seen| == |s.ops|
      && s.lock.pos <= |s.table|
      && (forall i | 0 <= i < s.lock.pos :: s.table[i] < |s.lock.seen| && s.lock.seen[s.table[i]].state == Running)
  }

  ghost predicate ReplyInv(s: Server, r: Answering) {
    && r.handle < |s.ops|
    && (r.state != Running ==> s.ops[r.handle].state == r.state)
    && (r.done && r.state == Succeeded ==> r.result.Some?)
    && (r.done && r.state == Failed ==> r.error.Some?)
  }

  ghost predicate Inv(s: Server) {
    && TableInv(s) && LaunchInv(s) && LockInv(s)
    && (forall h | 0 <= h < |s.ops| :: OpInv(s.ops[h]))
    && (forall r | r in s.replies :: ReplyInv(s, s.replies[r]))
  }

  lemma {:induction false} EnterKeeps(s: Server, key: string, verb: string)
    requires Inv(s)
    ensures Inv(EnterStep(s, key, verb)) && Grown(s.ops, EnterStep(s, key, verb).ops)
  {
    var s' := EnterStep(s, key, verb);
    assert TableInv(s') by { hide LaunchInv, LockInv, OpInv, ReplyInv; }
    assert LaunchInv(s') by { hide TableInv, LockInv, OpInv, ReplyInv; }
    assert forall r | r in s'.replies :: ReplyInv(s', s'.replies[r]) by { hide TableInv, LaunchInv, LockInv, OpInv; }
    hide TableInv, LaunchInv, ReplyInv;
  }

  lemma {:induction false} WithoutKeeps(table: seq<nat>, ops: seq<Op>, k: nat)
    requires Increasing(table, |ops|) && KeysDistinct(table, ops) && k < |table|
    ensures Increasing(Without(table, k), |ops|) && KeysDistinct(Without(table, k), ops)
    ensures forall i | 0 <= i < |table| && i != k :: table[i] in Without(table, k)
  {
    var after := Without(table, k);
    forall i, j | 0 <= i < j < |after|
      ensures after[i] < after[j] && ops[after[i]].key != ops[after[j]].key
    {
      var i', j' := if i < k then i else i + 1, if j < k then j else j + 1;
      assert after[i] == table[i'] && after[j] == table[j'] && i' < j';
    }
    forall i | 0 <= i < |table| && i != k ensures table[i] in after {
      assert table[i] == after[if i < k then i else i - 1];
    }
  }

  lemma {:induction false} LookKeeps(s: Server)
    requires Inv(s)
    ensures Inv(LookStep(s)) && LookStep(s).ops == s.ops
  {
    assert TableInv(LookStep(s)) by {
      hide LaunchInv, LockInv, OpInv, ReplyInv;
      if s.lock.Evicting? && s.lock.pos < |s.table| {
        WithoutKeeps(s.table, s.ops, s.lock.pos);
      }
    }
    hide TableInv, LockInv, OpInv;
    LookKeepsLock(s);
  }

  lemma {:induction false} LookKeepsLock(s: Server)
    requires Inv(s)
    ensures LockInv(LookStep(s))
  {
  }

  lemma {:induction false} LaunchKeeps(s: Server, handle: nat)
    requires Inv(s)
    ensures Inv(Apply(s, Launch(handle)))
  {
  }

  /** One operation moving on, by whatever its worker writes. */
  lemma {:induction false} OpMovesOn(s: Server, h: nat, op: Op)
    requires Inv(s) && h < |s.ops| && Follows(s.ops[h], op) && OpInv(op)
    ensures Inv(s.(ops := s.ops[h := op])) && Grown(s.ops, s.ops[h := op])
  {
    var s' := s.(ops := s.ops[h := op]);
    assert forall i | 0 <= i < |s.ops| :: s'.ops[i].key == s.ops[i].key;
    if s.lock.Evicting? {
      assert Grown(s.lock.seen, s'.ops);
    }
    forall r | r in s'.replies ensures ReplyInv(s', s'.replies[r]) {
      assert ReplyInv(s, s.replies[r]);
    }
  }

  lemma {:induction false} WriteKeeps(s: Server, step: Step)
    requires Inv(s) && (step.WriteValue? || step.WriteState?)
    ensures Inv(Apply(s, step)) && Grown(s.ops, Apply(s, step).ops)
  {
    if Working(s, step.handle) {
      OpMovesOn(s, step.handle, Apply(s, step).ops[step.handle]);
    }
  }

  lemma {:induction false} ReadKeeps(s: Server, step: Step)
    requires Inv(s) && (step.ReadState? || step.ReadValues?)
    ensures Inv(Apply(s, step))
  {
  }

  lemma {:induction false} ApplyKeeps(s: Server, step: Step)
    requires Inv(s)
    ensures Inv(Apply(s, step)) && Grown(s.ops, Apply(s, step).ops)
  {
    if step.Enter? { EnterKeeps(s, step.key, step.verb); }
    else if step.Look? { LookKeeps(s); }
    else if step.Launch? { LaunchKeeps(s, step.handle); }
    else if step.WriteValue? || step.WriteState? { WriteKeeps(s, step); }
    else { ReadKeeps(s, step); }
  }

  lemma {:induction false} ExecKeeps(s: Server, steps: seq<Step>)
    requires Inv(s)
    ensures Inv(Exec(s, steps)) && Grown(s.ops, Exec(s, steps).ops)
    decreases |steps|
  {
    if steps == [] {
    } else {
      ApplyKeeps(s, steps[0]);
      ExecKeeps(Apply(s, steps[0]), steps[1..]);
    }
  }

  // ---- main results --------------------------------------------------------------------

  /** In every run a remembered key stands for exactly one operation, no
      operation's work is started twice, and one whose request has gone past
      its start has been started. */
  lemma {:induction false} StartedOnce(limit: nat, steps: seq<Step>)
    ensures var s := Exec(Start(limit), steps);
            && (forall i, j | 0 <= i < |s.table| && 0 <= j < |s.table| && s.table[i] < |s.ops| && s.table[j] < |s.ops|
                  && s.ops[s.table[i]].key == s.ops[s.table[j]].key :: i == j)
            && Once(s.launches)
            && (forall h: nat | h < |s.ops| && h !in s.unstarted :: h in s.launches)
  {
    ExecKeeps(Start(limit), steps);
  }

  /** What is remembered: every running operation; no operation whose key has been given
      to a later one; and one that has ended was started. */
  ghost predicate MemoryInv(s: Server) {
    && (forall h | 0 <= h < |s.ops| && s.ops[h].state == Running :: h in s.table)
    && (forall g, h | 0 <= g < h < |s.ops| && s.ops[g].key == s.ops[h].key :: g !in s.table)
    && (forall h | 0 <= h < |s.ops| && s.ops[h].state != Running :: h in s.launches)
  }

  lemma {:induction false} EnterKeepsMemory(s: Server, key: string, verb: string)
    requires Inv(s) && MemoryInv(s)
    ensures MemoryInv(EnterStep(s, key, verb))
  {
    hide LaunchInv, LockInv, OpInv, ReplyInv;
    if !Known(s, key) {
      assert forall h | h in s.table :: h < |s.ops| && s.ops[h].key != key;
    }
  }

  lemma {:induction false} LookKeepsMemory(s: Server)
    requires Inv(s) && MemoryInv(s)
    ensures MemoryInv(LookStep(s))
  {
    hide LaunchInv, LockInv, OpInv, ReplyInv;
    if s.lock.Evicting? && s.lock.pos < |s.table| {
      WithoutKeeps(s.table, s.ops, s.lock.pos);
    }
  }

  lemma {:induction false} ApplyKeepsMemory(s: Server, step: Step)
    requires Inv(s) && MemoryInv(s)
    ensures MemoryInv(Apply(s, step))
  {
    if step.Enter? {
      EnterKeepsMemory(s, step.key, step.verb);
    } else if step.Look? {
      LookKeepsMemory(s);
    } else {
      hide Inv;
    }
  }

  lemma {:induction false} ExecKeepsMemory(s: Server, steps: seq<Step>)
    requires Inv(s) && MemoryInv(s)
    ensures MemoryInv(Exec(s, steps))
    decreases |steps|
  {
    if steps == [] {
    } else {
      ApplyKeeps(s, steps[0]);
      ApplyKeepsMemory(s, steps[0]);
      ExecKeepsMemory(Apply(s, steps[0]), steps[1..]);
    }
  }

  /** In every run, work under one key never runs twice at a time: when a second operation
      has a key, the first was started, has ended and is forgotten. */
  lemma {:induction false} OneAtATime(limit: nat, steps: seq<Step>, g: nat, h: nat)
    requires var s := Exec(Start(limit), steps); g < h < |s.ops| && s.ops[g].key == s.ops[h].key
    ensures var s := Exec(Start(limit), steps);
            s.ops[g].state != Running && g in s.launches && g !in s.table
  {
    ExecKeepsMemory(Start(limit), steps);
  }

  /** Exactly when a request's thread starts its work: once, and not before the request has
      let go of the lock under which it entered the operation. */
  lemma {:induction false} StartsExactly(s: Server, h: nat)
    requires Inv(s)
    ensures h in Apply(s, Launch(h)).launches <==>
      (h in s.launches || (h in s.unstarted && !(s.lock.Evicting? && s.lock.owner == h)))
    ensures forall other | other in Apply(s, Launch(h)).launches && other != h :: other in s.launches
  {
  }

  /** Repeats add nothing: over every part of every run during which an operation stays
      remembered, whatever is requested meanwhile, no operation is made under its key,
      and the only thread that can be started under it is its own, once. */
  lemma {:induction false} RepeatsStartNothing(limit: nat, first: seq<Step>, second: seq<Step>, h: nat)
    requires h in Exec(Start(limit), first).table && h in Exec(Exec(Start(limit), first), second).table
    ensures
      var s, later := Exec(Start(limit), first), Exec(Exec(Start(limit), first), second);
      && h < |s.ops| <= |later.ops| && Once(later.launches)
      && (forall g | |s.ops| <= g < |later.ops| :: later.ops[g].key != s.ops[h].key)
      && (forall g | g in later.launches && g !in s.launches ::
            g < |later.ops| && (later.ops[g].key == s.ops[h].key ==> g == h))
  {
    var s := Exec(Start(limit), first);
    var later := Exec(s, second);
    ExecKeeps(Start(limit), first);
    ExecKeepsMemory(Start(limit), first);
    ExecKeeps(s, second);
    ExecKeepsMemory(s, second);
    assert h < |s.ops| && Follows(s.ops[h], later.ops[h]);
    forall g | g in later.launches && g !in s.launches
      ensures g < |later.ops| && (later.ops[g].key == s.ops[h].key ==> g == h)
    {
      if g < h {
        assert Follows(s.ops[g], later.ops[g]);
        assert s.ops[g].state == Running && g in s.table;
      }
    }
  }

  /** Only finished operations are forgotten, and only the oldest: every older
      entry was still running when the pass that found this one began. */
  lemma {:induction false} ForgetsOldestFinished(limit: nat, steps: seq<Step>, step: Step, i: nat)
    requires var s := Exec(Start(limit), steps);
             i < |s.table| && s.table[i] !in Apply(s, step).table
    ensures var s := Exec(Start(limit), steps);
            && step == Look && s.lock.Evicting? && |s.table| > limit
            && s.table[i] < |s.ops| && s.ops[s.table[i]].state != Running
            && Apply(s, step).table == Without(s.table, i)
            && (forall j | 0 <= j < i ::
                  s.table[j] < |s.lock.seen| && s.lock.seen[s.table[j]].state == Running)
  {
    ExecKeeps(Start(limit), steps);
    ExecLimit(Start(limit), steps);
    var s := Exec(Start(limit), steps);
    if s.lock.Evicting? && s.lock.pos < |s.table| {
      WithoutKeeps(s.table, s.ops, s.lock.pos);
    }
  }

  lemma {:induction false} ExecLimit(s: Server, steps: seq<Step>)
    ensures Exec(s, steps).limit == s.limit
    decreases |steps|
  {
    if steps == [] {
    } else {
      ExecLimit(Apply(s, steps[0]), steps[1..]);
    }
  }

  /** The literal bound: at most `limit` entries, or only running ones. */
  ghost predicate Bounded(s: Server) {
    |s.table| <= s.limit || forall i | 0 <= i < |s.table| && s.table[i] < |s.ops| :: s.ops[s.table[i]].state == Running
  }

  /** No remembered operation has ended since the last pass began. */
  ghost predicate QuietPass(s: Server) {
    s.lock.Evicting? && forall i | 0 <= i < |s.table| && s.table[i] < |s.ops| && s.table[i] < |s.lock.seen| ::
      s.ops[s.table[i]].state == s.lock.seen[s.table[i]].state
  }

  /** When a request lets go of the lock, the table is within its bound or
      every entry was still running when the last pass over it began. The
      literal bound holds there if and only if the table is within its bound
      or no remembered operation ended during that pass. */
  lemma {:induction false} BoundAtRelease(limit: nat, steps: seq<Step>)
    requires var s := Exec(Start(limit), steps); s.lock.Evicting? && LookStep(s).lock == Free
    ensures var s := Exec(Start(limit), steps);
            && (|s.table| <= limit
                || forall i | 0 <= i < |s.table| ::
                     s.table[i] < |s.lock.seen| && s.lock.seen[s.table[i]].state == Running)
            && (Bounded(LookStep(s)) <==> |s.table| <= limit || QuietPass(s))
  {
    ExecKeeps(Start(limit), steps);
    ExecLimit(Start(limit), steps);
  }

  function Looks(steps: seq<Step>): nat {
    if steps == [] then 0 else (if steps[0].Look? then 1 else 0) + Looks(steps[1..])
  }

  /** How many looks an eviction has left at most, but for the one that lets go. */
  function LooksLeft(s: Server): int {
    if s.lock.Free? then 0 else |s.table| * (|s.table| + 2) - s.lock.pos
  }

  lemma {:induction false} LookCounts(s: Server)
    requires s.lock.Evicting? && s.lock.pos <= |s.table|
    ensures LookStep(s).lock.Free? || LooksLeft(LookStep(s)) < LooksLeft(s)
    ensures LookStep(s).lock.Evicting? ==> LookStep(s).lock.pos <= |LookStep(s).table|
    ensures LooksLeft(s) >= 0
  {
    var n := |s.table|;
    assert n * (n + 2) == n * n + 2 * n;
    assert n > 0 ==> (n - 1) * (n + 1) == n * n - 1;
  }

  lemma {:induction false} OnlyLooksMoveTheLock(s: Server, step: Step)
    requires s.lock.Evicting? && !step.Look?
    ensures Apply(s, step).lock == s.lock && Apply(s, step).table == s.table
  {
  }

  /** An eviction lets go of the lock, over every interleaving: once it has had as many
      looks as it may need, at some point of the run the lock was free. Requests, workers
      and readers in between cannot prolong it. */
  lemma {:induction false} EvictionReleases(s: Server, steps: seq<Step>) returns (k: nat)
    requires s.lock.Evicting? && s.lock.pos <= |s.table| && Looks(steps) > LooksLeft(s)
    ensures k <= |steps| && Exec(s, steps[..k]).lock == Free
    decreases |steps|
  {
    if steps[0].Look? { LookCounts(s); } else { OnlyLooksMoveTheLock(s, steps[0]); }
    var next := Apply(s, steps[0]);
    if next.lock == Free {
      k := 1;
      assert Exec(s, steps[..1]) == Exec(next, steps[..1][1..]);
    } else {
      if steps[1..] == [] { LookCounts(next); }
      k := EvictionReleases(next, steps[1..]);
      k := k + 1;
      assert steps[..k][1..] == steps[1..][..k - 1];
    }
  }

  /** The bound for a request that has just entered its operation: (n + 1) squared looks
      for a table of n entries, whatever else happens. */
  lemma {:induction false} EvictionIsBounded(limit: nat, first: seq<Step>, key: string, verb: string, second: seq<Step>)
    returns (k: nat)
    requires
      var n := |Exec(Start(limit), first).table| + 1;
      && Apply(Exec(Start(limit), first), Enter(key, verb)) != Exec(Start(limit), first)
      && Looks(second) >= (n + 1) * (n + 1)
    ensures
      var entered := Apply(Exec(Start(limit), first), Enter(key, verb));
      k <= |second| && Exec(entered, second[..k]).lock == Free
  {
    var entered := Apply(Exec(Start(limit), first), Enter(key, verb));
    var n := |entered.table|;
    assert (n + 1) * (n + 1) == n * (n + 2) + 1;
    k := EvictionReleases(entered, second);
  }

  /** A reply that says how the work ended carries what it ended with, however
      the worker's writes fall between the reads. */
  lemma {:induction false} FinishedRepliesAreWhole(limit: nat, steps: seq<Step>, reply: nat)
    requires var s := Exec(Start(limit), steps); reply in s.replies && s.replies[reply].done
    ensures var r := Exec(Start(limit), steps).replies[reply];
            (r.state == Succeeded ==> r.result.Some?) && (r.state == Failed ==> r.error.Some?)
  {
    ExecKeeps(Start(limit), steps);
    var s := Exec(Start(limit), steps);
    assert ReplyInv(s, s.replies[reply]);
  }

  // ---- what the unlocked writes make possible -----------------------------------------

  lemma {:induction false} ExecJoin(s: Server, first: seq<Step>, second: seq<Step>)
    ensures Exec(s, first + second) == Exec(Exec(s, first), second)
    decreases |first|
  {
    if first == [] {
      assert [] + second == second;
    } else {
      assert (first + second)[1..] == first[1..] + second;
      ExecJoin(Apply(s, first[0]), first[1..], second);
    }
  }

  lemma {:induction false} ExecTwo(s: Server, a: Step, b: Step)
    ensures Exec(s, [a, b]) == Apply(Apply(s, a), b)
  {
    assert [a, b][1..] == [b];
    assert Exec(s, [a, b]) == Exec(Apply(s, a), [b]) == Exec(Apply(Apply(s, a), b), [b][1..]);
  }

  predicate HasValue(op: Op) {
    op.result.Some? || op.error.Some?
  }

  /** The worker of operation h writes what its work gave at one of these steps. */
  ghost predicate Writes(s: Server, steps: seq<Step>, h: nat) {
    exists k | 0 <= k < |steps| :: steps[k].WriteValue? && steps[k].handle == h && Working(Exec(s, steps[..k]), h)
  }

  lemma {:induction false} WritesUnfold(s: Server, steps: seq<Step>, h: nat)
    requires steps != []
    ensures Writes(s, steps, h) <==>
      ((steps[0].WriteValue? && steps[0].handle == h && Working(s, h)) || Writes(Apply(s, steps[0]), steps[1..], h))
  {
    hide Working;
    var next := Apply(s, steps[0]);
    assert steps[..0] == [];
    forall k | 0 < k < |steps| ensures Exec(s, steps[..k]) == Exec(next, steps[1..][..k - 1]) {
      assert steps[..k][1..] == steps[1..][..k - 1];
    }
    if k :| 0 <= k < |steps[1..]| && steps[1..][k].WriteValue? && steps[1..][k].handle == h
            && Working(Exec(next, steps[1..][..k]), h) {
      assert steps[k + 1] == steps[1..][k];
    }
    if k :| 0 < k < |steps| && steps[k].WriteValue? && steps[k].handle == h && Working(Exec(s, steps[..k]), h) {
      assert steps[1..][k - 1] == steps[k];
    }
  }

  lemma {:induction false} ValueIsWritten(s: Server, step: Step, h: nat)
    requires Inv(s) && h < |s.ops|
    ensures h < |Apply(s, step).ops|
    ensures HasValue(Apply(s, step).ops[h]) <==>
      (HasValue(s.ops[h]) || (step.WriteValue? && step.handle == h && Working(s, h)))
  {
    hide Inv;
  }

  lemma {:induction false} ValuesAreWritten(s: Server, steps: seq<Step>, h: nat)
    requires Inv(s) && h < |s.ops|
    ensures h < |Exec(s, steps).ops|
    ensures HasValue(Exec(s, steps).ops[h]) <==> HasValue(s.ops[h]) || Writes(s, steps, h)
    decreases |steps|
  {
    hide HasValue, Working, Inv;
    if steps == [] {
    } else {
      var next := Apply(s, steps[0]);
      ApplyKeeps(s, steps[0]);
      ValueIsWritten(s, steps[0], h);
      ValuesAreWritten(next, steps[1..], h);
      WritesUnfold(s, steps, h);
    }
  }

  /** A reply that has read its state waits for its values as it is. */
  lemma {:induction false} ReplyWaits(s: Server, steps: seq<Step>, reply: nat)
    requires reply in s.replies && ReadValues(reply) !in steps
    ensures reply in Exec(s, steps).replies && Exec(s, steps).replies[reply] == s.replies[reply]
    decreases |steps|
  {
    if steps == [] {
    } else {
      ReplyWaits(Apply(s, steps[0]), steps[1..], reply);
    }
  }

  /** Exactly when a reply that says `running` carries a value all the same: when the
      worker had written it before the reply read the state, or wrote it between the
      two reads. */
  lemma {:induction false} RunningReplyCarriesExactly(
    limit: nat, first: seq<Step>, between: seq<Step>, reply: nat, h: nat)
    requires
      var s := Exec(Start(limit), first);
      reply !in s.replies && h < |s.ops| && s.ops[h].state == Running && ReadValues(reply) !in between
    ensures
      var s := Exec(Start(limit), first);
      var asked := Apply(s, ReadState(reply, h));
      var answered := Apply(Exec(asked, between), ReadValues(reply));
      && reply in answered.replies
      && var r := answered.replies[reply];
         && r.handle == h && r.state == Running && r.done
         && (r.result.Some? || r.error.Some? <==> HasValue(s.ops[h]) || Writes(asked, between, h))
  {
    var s := Exec(Start(limit), first);
    var asked := Apply(s, ReadState(reply, h));
    ExecKeeps(Start(limit), first);
    ApplyKeeps(s, ReadState(reply, h));
    hide Inv, Writes;
    ReplyWaits(asked, between, reply);
    ValuesAreWritten(asked, between, h);
  }

  /** A reply may say `running` and carry the result all the same. */
  lemma {:induction false} RunningReplyMayCarryResult()
    ensures var s := Exec(Start(1000), [Enter("k", "v"), Look] + ([Launch(0), ReadState(0, 0)]
                                       + [WriteValue(0, true, "done"), ReadValues(0)]));
            0 in s.replies && s.replies[0] == Answering(0, Running, true, Some("done"), None)
  {
    var first, second, third :=
      [Enter("k", "v"), Look], [Launch(0), ReadState(0, 0)], [WriteValue(0, true, "done"), ReadValues(0)];
    ExecJoin(Start(1000), first, second + third);
    ExecTwo(Start(1000), first[0], first[1]);
    var s2 := Exec(Start(1000), first);
    assert s2.ops == [Op("k", "v", Running, None, None)] && s2.unstarted == {0} && s2.lock == Free
        && s2.replies == map[];
    ExecJoin(s2, second, third);
    ExecTwo(s2, second[0], second[1]);
    var s4 := Exec(s2, second);
    assert s4.launches == s2.launches + [0];
    ExecTwo(s4, third[0], third[1]);
  }

  function KeyOf(i: nat): string
    requires i < 2000
  {
    [i as char]
  }

  function Fill(n: nat): (steps: seq<Step>)
    requires n < 2000
  {
    if n == 0 then [] else Fill(n - 1) + [Enter(KeyOf(n - 1), "v"), Look]
  }

  ghost predicate Filled(s: Server, n: nat) {
    && s.limit == 1000 && s.lock == Free
    && |s.ops| == n && s.table == seq(n, i => i)
    && (forall i | 0 <= i < n :: i < 2000 && s.ops[i] == Op(KeyOf(i), "v", Running, None, None))
    && (forall i: nat | i < n :: i in s.unstarted) && s.launches == []
  }

  lemma {:induction false} FillWorks(n: nat)
    requires n <= 1000
    ensures Filled(Exec(Start(1000), Fill(n)), n)
    decreases n
  {
    if n == 0 {
    } else {
      FillWorks(n - 1);
      var s := Exec(Start(1000), Fill(n - 1));
      ExecJoin(Start(1000), Fill(n - 1), [Enter(KeyOf(n - 1), "v"), Look]);
      EnterOne(s, n - 1);
    }
  }

  lemma {:induction false} EnterOne(s: Server, n: nat)
    requires n < 1000 && Filled(s, n)
    ensures Filled(Exec(s, [Enter(KeyOf(n), "v"), Look]), n + 1)
  {
    var entered := Apply(s, Enter(KeyOf(n), "v"));
    assert !Known(s, KeyOf(n)) by {
      forall i | 0 <= i < |s.table| && s.table[i] < |s.ops| ensures s.ops[s.table[i]].key != KeyOf(n) {
        assert s.table[i] == i && KeyOf(i)[0] != KeyOf(n)[0];
      }
    }
    assert entered.table == seq(n + 1, i => i);
    var steps := [Enter(KeyOf(n), "v"), Look];
    assert Exec(s, steps) == Exec(entered, steps[1..]) == Exec(Apply(entered, Look), steps[1..][1..]);
  }

  /** Looks past running entries. */
  lemma {:induction false} LooksPass(s: Server, owner: nat, pos: nat, seen: seq<Op>, n: nat)
    requires s.lock == Evicting(owner, pos, seen) && |s.table| > s.limit && pos + n <= |s.table|
    requires forall i | pos <= i < pos + n :: s.table[i] < |s.ops| && s.ops[s.table[i]].state == Running
    ensures Exec(s, seq(n, _ => Look)) == s.(lock := Evicting(owner, pos + n, seen))
    decreases n
  {
    if n == 0 {
    } else {
      assert seq(n, _ => Look)[1..] == seq(n - 1, _ => Look);
      LooksPass(Apply(s, Look), owner, pos + 1, seen, n - 1);
    }
  }

  /** The 1001st request has looked at the oldest entry, which then ends. */
  lemma {:induction false} OldestEndsDuringPass(s: Server)
    requires Filled(s, 1000)
    ensures var key := KeyOf(1000);
            var s5 := Exec(Exec(Apply(s, Launch(0)), [Enter(key, "v"), Look]),
                [WriteValue(0, true, "done"), WriteState(0)]);
            && s5.limit == 1000 && s5.lock.Evicting? && s5.lock.owner == 1000 && s5.lock.pos == 1
            && |s5.table| == 1001 == |s5.ops| && s5.table[0] == 0 && s5.ops[0].state == Succeeded
            && forall i | 1 <= i < 1001 :: s5.table[i] == i && s5.ops[i].state == Running
  {
    var s1 := Apply(s, Launch(0));
    var key := KeyOf(1000);
    assert !Known(s1, key) by {
      forall i | 0 <= i < |s1.table| && s1.table[i] < |s1.ops| ensures s1.ops[s1.table[i]].key != key {
        assert s1.table[i] == i && KeyOf(i)[0] != key[0];
      }
    }
    ExecTwo(s1, Enter(key, "v"), Look);
    var s3 := Exec(s1, [Enter(key, "v"), Look]);
    assert s3.launches == [0] && s3.ops[0].state == Running && s3.lock.pos == 1;
    ExecTwo(s3, WriteValue(0, true, "done"), WriteState(0));
  }

  /** With the shipped limit: after 1000 running operations, the 1001st request
      looks at the oldest entry, which ends right after; the pass finds nothing
      to forget, and the table is left with 1001 entries, one of them finished. */
  lemma {:induction false} FinishedMayOutlastTheBound() returns (steps: seq<Step>)
    ensures var s := Exec(Start(1000), steps);
            && s.lock == Free && |s.table| == 1001
            && s.table[0] < |s.ops| && s.ops[s.table[0]].state == Succeeded
  {
    FillWorks(1000);
    var enter, write := [Enter(KeyOf(1000), "v"), Look], [WriteValue(0, true, "done"), WriteState(0)];
    var looks := seq(1000, _ => Look);
    var rest := enter + (write + (looks + [Look]));
    steps := Fill(1000) + ([Launch(0)] + rest);
    var s0 := Exec(Start(1000), Fill(1000));
    OldestEndsDuringPass(s0);
    ExecJoin(Start(1000), Fill(1000), [Launch(0)] + rest);
    assert ([Launch(0)] + rest)[1..] == rest;
    var s1 := Apply(s0, Launch(0));
    var s3 := Exec(s1, enter);
    var s5 := Exec(s3, write);
    ExecJoin(s1, enter, write + (looks + [Look]));
    ExecJoin(s3, write, looks + [Look]);
    ExecJoin(s5, looks, [Look]);
    LooksPass(s5, 1000, 1, s5.lock.seen, 1000);
    var s6 := Exec(s5, looks);
    assert Exec(s6, [Look]) == Exec(Apply(s6, Look), [Look][1..]);
  }
}
