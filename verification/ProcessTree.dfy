/** Whose processes a launchd job's are: the closure in `telemetry` of
    agent/runtimes/macos_appliance.py, over the table `ps` printed. Parent links may
    dangle or form cycles. */
module ProcessTree {
  import opened Basics

  datatype Process = Process(parent: int, group: int, cpu: real, memory: int)

  type Table = map<int, Process>

  /** The job's own pid and its process group. */
  function Seeds(table: Table, pid: int): set<int> {
    {pid} + set p | p in table && table[p].group == pid
  }

  function Children(table: Table, of: set<int>): set<int> {
    set p | p in table && table[p].parent in of
  }

  // ---- reachability, on its own terms --------------------------------------------------

  /** Pids from a seed down, each the parent of the next. */
  predicate Path(table: Table, pid: int, path: seq<int>)
    decreases |path|
  {
    && path != []
    && var last := path[|path| - 1];
       if |path| == 1 then last == pid || (last in table && table[last].group == pid)
       else
         var init := path[..|path| - 1];
         last in table && table[last].parent == init[|init| - 1] && Path(table, pid, init)
  }

  ghost predicate Reached(table: Table, pid: int, p: int) {
    exists path :: Path(table, pid, path) && path[|path| - 1] == p
  }

  lemma {:induction false} ReachedOn(table: Table, pid: int, parent: int, child: int)
    requires Reached(table, pid, parent) && child in table && table[child].parent == parent
    ensures Reached(table, pid, child)
  {
    var path :| Path(table, pid, path) && path[|path| - 1] == parent;
    var longer := path + [child];
    assert longer[..|longer| - 1] == path;
    assert Path(table, pid, longer);
  }

  lemma {:induction false} SeedReached(table: Table, pid: int, p: int)
    requires p in Seeds(table, pid)
    ensures Reached(table, pid, p)
  {
    assert Path(table, pid, [p]);
  }

  ghost predicate Closed(table: Table, pid: int, owned: set<int>) {
    Seeds(table, pid) <= owned && Children(table, owned) <= owned
  }

  lemma {:induction false} ClosedHoldsPaths(table: Table, pid: int, owned: set<int>, path: seq<int>)
    requires Closed(table, pid, owned) && Path(table, pid, path)
    ensures path[|path| - 1] in owned
    decreases |path|
  {
    if |path| > 1 {
      ClosedHoldsPaths(table, pid, owned, path[..|path| - 1]);
      assert path[|path| - 1] in Children(table, owned);
    }
  }

  // ---- two jobs --------------------------------------------------------------------------

  ghost predicate BothReach(table: Table, one: int, other: int, p: int) {
    Reached(table, one, p) && Reached(table, other, p)
  }

  /** A seed of one job that the other reaches. */
  ghost predicate Meets(table: Table, one: int, other: int, p: int) {
    (p in Seeds(table, one) && Reached(table, other, p)) || (p in Seeds(table, other) && Reached(table, one, p))
  }

  /** Every process has one parent, so two chains down to it run together from where the
      shorter one begins. */
  lemma {:induction false} ChainsMeet(table: Table, one: int, other: int, here: seq<int>, there: seq<int>)
    returns (p: int)
    requires Path(table, one, here) && Path(table, other, there) && here[|here| - 1] == there[|there| - 1]
    ensures Meets(table, one, other, p)
    decreases |here|
  {
    p := here[|here| - 1];
    if |here| > 1 && |there| > 1 {
      p := ChainsMeet(table, one, other, here[..|here| - 1], there[..|there| - 1]);
    }
  }

  /** Exactly when two jobs own a process in common: when a seed of one, its pid or a
      member of its group, is owned by the other. */
  lemma {:induction false} SharedExactly(table: Table, one: int, other: int)
    ensures (exists p :: BothReach(table, one, other, p)) <==> (exists p :: Meets(table, one, other, p))
  {
    if q :| BothReach(table, one, other, q) {
      var here :| Path(table, one, here) && here[|here| - 1] == q;
      var there :| Path(table, other, there) && there[|there| - 1] == q;
      var p := ChainsMeet(table, one, other, here, there);
      assert Meets(table, one, other, p);
    }
    if p :| Meets(table, one, other, p) {
      if p in Seeds(table, one) { SeedReached(table, one, p); }
      if p in Seeds(table, other) { SeedReached(table, other, p); }
      assert BothReach(table, one, other, p);
    }
  }

  // ---- the closure loop -------------------------------------------------------------------

  /** Ends on every table, with exactly the processes reachable by child links from the
      job's pid or its process group. */
  method Owned(table: Table, pid: int) returns (owned: set<int>)
    ensures forall p :: p in owned <==> Reached(table, pid, p)
  {
    owned := Seeds(table, pid);
    forall p | p in owned ensures Reached(table, pid, p) { SeedReached(table, pid, p); }
    while true
      invariant Seeds(table, pid) <= owned
      invariant forall p | p in owned :: Reached(table, pid, p)
      decreases table.Keys - owned
    {
      var descendants := Children(table, owned);
      if descendants <= owned { break; }
      forall p | p in descendants ensures Reached(table, pid, p) { ReachedOn(table, pid, table[p].parent, p); }
      ghost var p := Member(descendants - owned);
      assert p in table.Keys - owned;
      owned := owned + descendants;
    }
    forall p | Reached(table, pid, p) ensures p in owned {
      var path :| Path(table, pid, path) && path[|path| - 1] == p;
      ClosedHoldsPaths(table, pid, owned, path);
    }
  }

  // ---- measuring -----------------------------------------------------------------------------

  lemma {:induction false} HasPid(pids: set<int>)
    requires pids != {}
    ensures exists p: int :: p in pids
  {
    var p := Member(pids);
    assert p in pids;
  }

  /** Memory of these processes together. */
  ghost function Memory(table: Table, pids: set<int>): int
    requires pids <= table.Keys
  {
    if pids == {} then 0
    else
      HasPid(pids);
      var p :| p in pids;
      table[p].memory + Memory(table, pids - {p})
  }

  /** Whichever process is taken first, the sum is the same. */
  lemma {:induction false} TakeAny(table: Table, pids: set<int>, p: int)
    requires pids <= table.Keys && p in pids
    ensures Memory(table, pids) == table[p].memory + Memory(table, pids - {p})
    decreases |pids|
  {
    var q :| q in pids && Memory(table, pids) == table[q].memory + Memory(table, pids - {q});
    if q != p {
      TakeAny(table, pids - {q}, p);
      TakeAny(table, pids - {p}, q);
      assert pids - {q} - {p} == pids - {p} - {q};
    }
  }

  /** Separate groups of processes add up: none is counted in two of them. */
  lemma {:induction false} MemoryAdds(table: Table, a: set<int>, b: set<int>)
    requires a !! b && a <= table.Keys && b <= table.Keys
    ensures Memory(table, a + b) == Memory(table, a) + Memory(table, b)
    decreases |a|
  {
    if a == {} {
      assert a + b == b;
    } else {
      var p := Member(a);
      TakeAny(table, a, p);
      TakeAny(table, a + b, p);
      assert a + b - {p} == (a - {p}) + b;
      MemoryAdds(table, a - {p}, b);
    }
  }

  /** The owned processes that the table has. */
  ghost function Measured(table: Table, pid: int): set<int> {
    set p | p in table && Reached(table, pid, p)
  }

  /** The memory of every owned process in the table, each once; nothing when none is. */
  method MemoryUsed(table: Table, pid: int) returns (used: Option<int>)
    ensures
      var measured := Measured(table, pid);
      used == if measured == {} then None else Some(Memory(table, measured))
  {
    var owned := Owned(table, pid);
    var left := set p | p in owned && p in table;
    ghost var measured := Measured(table, pid);
    assert left == measured;
    if left == {} { return None; }
    var sum := 0;
    while left != {}
      invariant left <= table.Keys
      invariant sum + Memory(table, left) == Memory(table, measured)
      decreases |left|
    {
      HasPid(left);
      var p: int :| p in left;
      TakeAny(table, left, p);
      sum := sum + table[p].memory;
      left := left - {p};
    }
    return Some(sum);
  }

  /** Processes in both groups are counted twice, and no other is. */
  lemma {:induction false} OverlapCountsTwice(table: Table, a: set<int>, b: set<int>)
    requires a <= table.Keys && b <= table.Keys
    ensures Memory(table, a) + Memory(table, b) == Memory(table, a + b) + Memory(table, a * b)
  {
    MemoryAdds(table, a - b, a * b);
    assert (a - b) + a * b == a;
    MemoryAdds(table, a - b, b);
    assert (a - b) + b == a + b;
  }

  /** What is measured of two jobs exceeds what they use together by exactly what they
      share. When no seed of either is owned by the other, they share nothing and fit
      in what the table holds. */
  lemma {:induction false} SeparateJobsFit(table: Table, one: int, other: int)
    requires forall p | p in table :: table[p].memory >= 0
    ensures
      var a, b := Measured(table, one), Measured(table, other);
      && Memory(table, a) + Memory(table, b) == Memory(table, a + b) + Memory(table, a * b)
      && ((forall p :: !Meets(table, one, other, p)) ==>
            a !! b && Memory(table, a) + Memory(table, b) <= Memory(table, table.Keys))
  {
    var a, b := Measured(table, one), Measured(table, other);
    OverlapCountsTwice(table, a, b);
    if forall p :: !Meets(table, one, other, p) {
      SharedExactly(table, one, other);
      assert forall p | p in a :: p in b ==> BothReach(table, one, other, p);
      var rest := table.Keys - (a + b);
      MemoryAdds(table, a, b);
      MemoryAdds(table, a + b, rest);
      assert a + b + rest == table.Keys;
      MemoryIsNotNegative(table, rest);
    }
  }

  lemma {:induction false} MemoryIsNotNegative(table: Table, pids: set<int>)
    requires pids <= table.Keys && forall p | p in table :: table[p].memory >= 0
    ensures Memory(table, pids) >= 0
    decreases |pids|
  {
    if pids == {} {
    } else {
      var p := Member(pids);
      TakeAny(table, pids, p);
      MemoryIsNotNegative(table, pids - {p});
    }
  }
}
