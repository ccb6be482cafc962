/** CPU lists as sets: the counting sweep of agent/cpu.py and the affinity mask of
    agent/jobhost.py. */
module CpuSet {
  import opened Basics
  import opened CpuText

  predicate Covers(interval: Interval, c: int) {
    interval.first <= c <= interval.last
  }

  function Span(interval: Interval): set<int> {
    set c | interval.first <= c <= interval.last && Covers(interval, c)
  }

  /** The CPUs that some interval covers. */
  function Cpus(intervals: seq<Interval>): set<int> {
    if intervals == [] then {} else Cpus(intervals[..|intervals| - 1]) + Span(intervals[|intervals| - 1])
  }

  /** The ranges a list names for counting; None when any part is nonsense. */
  function Counted(parts: seq<string>): Option<seq<Interval>> {
    if parts == [] then Some([])
    else
      var before := Counted(parts[..|parts| - 1]);
      match CountPart(parts[|parts| - 1])
      case Nonsense => None
      case Blank => before
      case Range(interval) => if before.None? then None else Some(before.value + [interval])
  }

  /** The ranges a list names for the mask; None is a ValueError. */
  function Masked(parts: seq<string>): Option<seq<Interval>> {
    if parts == [] then Some([])
    else
      var before := Masked(parts[..|parts| - 1]);
      var last := MaskPart(parts[|parts| - 1]);
      if before.None? || last.None? then None else Some(before.value + [last.value])
  }

  ghost predicate Proper(intervals: seq<Interval>) {
    forall k | 0 <= k < |intervals| :: 0 <= intervals[k].first <= intervals[k].last
  }

  lemma {:induction false} CountedIsProper(parts: seq<string>)
    requires Counted(parts).Some?
    ensures Proper(Counted(parts).value)
    decreases |parts|
  {
    if parts != [] && Counted(parts[..|parts| - 1]).Some? { CountedIsProper(parts[..|parts| - 1]); }
  }

  lemma {:induction false} NonsenseSpoils(parts: seq<string>, k: nat)
    requires k < |parts| && CountPart(parts[k]).Nonsense?
    ensures Counted(parts).None?
    decreases |parts|
  {
    if k < |parts| - 1 { NonsenseSpoils(parts[..|parts| - 1], k); }
  }

  lemma {:induction false} ErrorSpoils(parts: seq<string>, k: nat)
    requires k < |parts| && MaskPart(parts[k]).None?
    ensures Masked(parts).None?
    decreases |parts|
  {
    if k < |parts| - 1 { ErrorSpoils(parts[..|parts| - 1], k); }
  }

  lemma {:induction false} InCpus(intervals: seq<Interval>, c: int)
    ensures c in Cpus(intervals) <==> exists k | 0 <= k < |intervals| :: c in Span(intervals[k])
    decreases |intervals|
  {
    if intervals == [] {
    } else {
      var init := intervals[..|intervals| - 1];
      InCpus(init, c);
      if c in Cpus(init) {
        var k :| 0 <= k < |init| && c in Span(init[k]);
        assert c in Span(intervals[k]);
      }
      if k :| 0 <= k < |intervals| && c in Span(intervals[k]) {
        if k < |init| { assert c in Span(init[k]); }
      }
    }
  }

  lemma {:induction false} SpanSize(first: int, last: int)
    requires first <= last + 1
    ensures |Span(Interval(first, last))| == last - first + 1
    decreases last - first + 1
  {
    if first > last {
      assert Span(Interval(first, last)) == {};
    } else {
      SpanSize(first, last - 1);
      assert Span(Interval(first, last)) == Span(Interval(first, last - 1)) + {last};
    }
  }

  // ---- sorting ------------------------------------------------------------------------

  /** Tuples compare by first, then last. */
  predicate Before(a: Interval, b: Interval) {
    a.first < b.first || (a.first == b.first && a.last <= b.last)
  }

  ghost predicate Ordered(s: seq<Interval>) {
    forall i, j | 0 <= i < j < |s| :: Before(s[i], s[j])
  }

  function Insert(s: seq<Interval>, x: Interval): seq<Interval> {
    if s == [] || Before(s[|s| - 1], x) then s + [x] else Insert(s[..|s| - 1], x) + [s[|s| - 1]]
  }

  /** `sorted(intervals)` */
  function Sorted(s: seq<Interval>): seq<Interval> {
    if s == [] then [] else Insert(Sorted(s[..|s| - 1]), s[|s| - 1])
  }

  lemma {:induction false} InsertRearranges(s: seq<Interval>, x: Interval)
    ensures multiset(Insert(s, x)) == multiset(s) + multiset{x}
    decreases |s|
  {
    if !(s == [] || Before(s[|s| - 1], x)) {
      InsertRearranges(s[..|s| - 1], x);
      assert s == s[..|s| - 1] + [s[|s| - 1]];
    }
  }

  lemma {:induction false} InsertOrders(s: seq<Interval>, x: Interval)
    requires Ordered(s)
    ensures Ordered(Insert(s, x))
    decreases |s|
  {
    if !(s == [] || Before(s[|s| - 1], x)) {
      var init, last := s[..|s| - 1], s[|s| - 1];
      InsertOrders(init, x);
      InsertRearranges(init, x);
      var r := Insert(init, x);
      forall i | 0 <= i < |r| ensures Before(r[i], last) {
        AtMost(init, x, last, r, i);
      }
    }
  }

  lemma {:induction false} AtMost(init: seq<Interval>, x: Interval, last: Interval, r: seq<Interval>, i: nat)
    requires multiset(r) == multiset(init) + multiset{x} && i < |r|
    requires Before(x, last) && forall k | 0 <= k < |init| :: Before(init[k], last)
    ensures Before(r[i], last)
  {
    assert r[i] in multiset(r);
  }

  /** Sorting rearranges and orders. */
  lemma {:induction false} SortedSorts(s: seq<Interval>)
    ensures Ordered(Sorted(s)) && multiset(Sorted(s)) == multiset(s)
    decreases |s|
  {
    if s == [] {
    } else {
      SortedSorts(s[..|s| - 1]);
      InsertOrders(Sorted(s[..|s| - 1]), s[|s| - 1]);
      InsertRearranges(Sorted(s[..|s| - 1]), s[|s| - 1]);
      assert s == s[..|s| - 1] + [s[|s| - 1]];
    }
  }

  lemma {:induction false} SameCpus(s: seq<Interval>, t: seq<Interval>)
    requires multiset(s) == multiset(t)
    ensures Cpus(s) == Cpus(t)
  {
    forall c ensures c in Cpus(s) <==> c in Cpus(t) {
      InCpus(s, c);
      InCpus(t, c);
      if k :| 0 <= k < |s| && c in Span(s[k]) {
        assert s[k] in multiset(t);
        var j :| 0 <= j < |t| && t[j] == s[k];
        assert c in Span(t[j]);
      }
      if k :| 0 <= k < |t| && c in Span(t[k]) {
        assert t[k] in multiset(s);
        var j :| 0 <= j < |s| && s[j] == t[k];
        assert c in Span(s[j]);
      }
    }
  }

  // ---- the sweep ---------------------------------------------------------------------------

  /** After sweeping `seen`: the count is its union's, and `end` the largest last. */
  ghost predicate Swept(seen: seq<Interval>, total: int, end: int) {
    && total == |Cpus(seen)| && end >= -1
    && (forall k | 0 <= k < |seen| :: seen[k].last <= end)
    && (end >= 0 ==> exists k | 0 <= k < |seen| :: seen[k].last == end)
  }

  lemma {:induction false} SweepNext(seen: seq<Interval>, next: Interval, total: int, end: int)
    requires Swept(seen, total, end) && Ordered(seen + [next]) && Proper(seen + [next])
    ensures Swept(seen + [next], total + Max(0, next.last - Max(next.first, end + 1) + 1), Max(end, next.last))
  {
    var all := seen + [next];
    assert all[|seen|] == next && all[..|all| - 1] == seen;
    var from := Max(next.first, end + 1);
    var added := Span(Interval(from, next.last));
    forall c ensures c in Cpus(seen) && c in added ==> false {
      InCpus(seen, c);
    }
    assert Cpus(seen) !! added;
    forall c | c in Span(next) ensures c in Cpus(seen) || c in added {
      if c <= end {
        var k :| 0 <= k < |seen| && seen[k].last == end;
        assert Before(all[k], all[|seen|]) && all[k] == seen[k];
        assert c in Span(seen[k]);
        InCpus(seen, c);
      }
    }
    assert Cpus(all) == Cpus(seen) + added;
    if from <= next.last + 1 { SpanSize(from, next.last); } else { assert added == {}; }
    forall k | 0 <= k < |all| ensures all[k].last <= Max(end, next.last) {
      if k < |seen| { assert all[k] == seen[k]; }
    }
    if end >= next.last && end >= 0 {
      var k :| 0 <= k < |seen| && seen[k].last == end;
      assert all[k].last == end;
    } else {
      assert all[|seen|].last == Max(end, next.last);
    }
  }

  /** `cpuset_count`: the number of CPUs the list covers, each counted once in
      whatever order and overlap the ranges come; 0 when any part is nonsense. */
  method CpusetCount(spec: string) returns (total: int)
    ensures Counted(Split(spec, ',')).None? ==> total == 0
    ensures Counted(Split(spec, ',')).Some? ==> total == |Cpus(Counted(Split(spec, ',')).value)|
  {
    var intervals := ReadParts(Split(spec, ','));
    if intervals.None? { return 0; }
    CountedIsProper(Split(spec, ','));
    total := Sweep(intervals.value);
  }

  method ReadParts(parts: seq<string>) returns (intervals: Option<seq<Interval>>)
    ensures intervals == Counted(parts)
  {
    var found: seq<Interval> := [];
    for k := 0 to |parts|
      invariant Counted(parts[..k]) == Some(found)
    {
      assert parts[..k + 1][..k] == parts[..k];
      var part := CountPart(parts[k]);
      if part.Nonsense? {
        NonsenseSpoils(parts, k);
        return None;
      }
      if part.Range? { found := found + [part.interval]; }
    }
    assert parts[..|parts|] == parts;
    return Some(found);
  }

  method Sweep(intervals: seq<Interval>) returns (total: int)
    requires Proper(intervals)
    ensures total == |Cpus(intervals)|
  {
    var sorted := Sorted(intervals);
    SortedSorts(intervals);
    ProperSorted(intervals, sorted);
    SameCpus(intervals, sorted);
    total := SweepSorted(sorted);
  }

  lemma {:induction false} SweepOne(sorted: seq<Interval>, k: nat, total: int, end: int)
    requires k < |sorted| && Ordered(sorted) && Proper(sorted) && Swept(sorted[..k], total, end)
    ensures Swept(sorted[..k + 1], total + Max(0, sorted[k].last - Max(sorted[k].first, end + 1) + 1),
        Max(end, sorted[k].last))
  {
    assert sorted[..k] + [sorted[k]] == sorted[..k + 1];
    SweepNext(sorted[..k], sorted[k], total, end);
  }

  method SweepSorted(sorted: seq<Interval>) returns (total: int)
    requires Ordered(sorted) && Proper(sorted)
    ensures total == |Cpus(sorted)|
  {
    var end := -1;
    total := 0;
    for k := 0 to |sorted|
      invariant Swept(sorted[..k], total, end)
    {
      SweepOne(sorted, k, total, end);
      total := total + Max(0, sorted[k].last - Max(sorted[k].first, end + 1) + 1);
      end := Max(end, sorted[k].last);
    }
    assert sorted[..|sorted|] == sorted;
  }

  lemma {:induction false} ProperSorted(s: seq<Interval>, t: seq<Interval>)
    requires Proper(s) && multiset(s) == multiset(t)
    ensures Proper(t)
  {
    forall k | 0 <= k < |t| ensures 0 <= t[k].first <= t[k].last {
      assert t[k] in multiset(s);
    }
  }
}
