/** The affinity mask of agent/jobhost.py as an unbounded integer, and its agreement
    with the CPU count of agent/cpu.py. */
module AffinityMask {
  import opened Basics
  import opened CpuText
  import opened CpuSet

  function Pow2(n: nat): (p: nat)
    ensures p > 0
  {
    if n == 0 then 1 else 2 * Pow2(n - 1)
  }

  /** Bit k of m. */
  predicate Bit(m: nat, k: nat) {
    if k == 0 then m % 2 == 1 else Bit(m / 2, k - 1)
  }

  /** `a | b` */
  function Or(a: nat, b: nat): nat {
    if a == 0 then b
    else if b == 0 then a
    else 2 * Or(a / 2, b / 2) + (if a % 2 == 1 || b % 2 == 1 then 1 else 0)
  }

  /** The number of set bits. */
  function Population(m: nat): nat {
    if m == 0 then 0 else Population(m / 2) + m % 2
  }

  lemma {:induction false} ZeroHasNoBits(k: nat)
    ensures !Bit(0, k)
    decreases k
  {
    if k == 0 {
    } else {
      ZeroHasNoBits(k - 1);
    }
  }

  lemma {:induction false} OrBits(a: nat, b: nat, k: nat)
    ensures Bit(Or(a, b), k) <==> Bit(a, k) || Bit(b, k)
    decreases k
  {
    if a == 0 || b == 0 {
      ZeroHasNoBits(k);
    } else if k > 0 {
      OrBits(a / 2, b / 2, k - 1);
    }
  }

  lemma {:induction false} PowerHasOneBit(n: nat, k: nat)
    ensures Bit(Pow2(n), k) <==> k == n
    decreases n
  {
    if n == 0 {
      if k > 0 { ZeroHasNoBits(k - 1); }
    } else if k > 0 {
      PowerHasOneBit(n - 1, k - 1);
    }
  }

  function Next(k: int): int {
    k + 1
  }

  function Shifted(s: set<int>): set<int> {
    set k | k in s :: Next(k)
  }

  /** The set bits, as CPU numbers. */
  function Bits(m: nat): set<int> {
    if m == 0 then {} else Shifted(Bits(m / 2)) + (if m % 2 == 1 then {0} else {})
  }

  lemma {:induction false} BitsAreBits(m: nat, k: int)
    ensures k in Bits(m) <==> k >= 0 && Bit(m, k)
    decreases m
  {
    if m == 0 {
      if k >= 0 { ZeroHasNoBits(k); }
    } else {
      BitsAreBits(m / 2, k - 1);
      if k in Bits(m) && k != 0 {
        assert k - 1 in Bits(m / 2);
      }
      if k - 1 in Bits(m / 2) { assert Next(k - 1) in Shifted(Bits(m / 2)); }
    }
  }

  lemma {:induction false} ShiftedSize(s: set<int>)
    ensures |Shifted(s)| == |s|
    decreases |s|
  {
    if s == {} {
      assert Shifted(s) == {};
    } else {
      var x := Member(s);
      var rest := s - {x};
      ShiftedSize(rest);
      assert Next(x) !in Shifted(rest);
      assert Shifted(s) == Shifted(rest) + {Next(x)};
    }
  }

  lemma {:induction false} PopulationIsSize(m: nat)
    ensures Population(m) == |Bits(m)|
    decreases m
  {
    if m == 0 {
    } else {
      PopulationIsSize(m / 2);
      ShiftedSize(Bits(m / 2));
      forall k | k in Bits(m / 2) ensures k >= 0 { BitsAreBits(m / 2, k); }
      assert 0 !in Shifted(Bits(m / 2));
    }
  }

  lemma {:induction false} HighBitsBound(m: nat, n: nat)
    requires forall k: nat | k >= n :: !Bit(m, k)
    ensures m < Pow2(n)
    decreases m
  {
    if m == 0 {
    } else {
      if n == 0 {
        assert !Bit(m, 0);
        forall k: nat ensures !Bit(m / 2, k) { assert !Bit(m, k + 1); }
        HighBitsBound(m / 2, 0);
      } else {
        forall k: nat | k >= n - 1 ensures !Bit(m / 2, k) { assert !Bit(m, k + 1); }
        HighBitsBound(m / 2, n - 1);
      }
    }
  }

  /** Exactly these CPUs are set. */
  ghost predicate Exactly(m: nat, cpus: set<int>) {
    forall k: nat :: Bit(m, k) <==> k in cpus
  }

  datatype Mask = NoMask | Mask(bits: nat) | ValueError

  /** `affinity_mask` */
  method AffinityMask(cpuset: string) returns (mask: Mask)
    ensures cpuset == "" <==> mask.NoMask?
    ensures cpuset != "" ==> (mask.ValueError? <==> Masked(Split(cpuset, ',')).None?)
    ensures mask.Mask? ==> Exactly(mask.bits, Cpus(Masked(Split(cpuset, ',')).value)) && mask.bits < Pow2(64)
  {
    if cpuset == "" { return NoMask; }
    var bits := MaskBits(Split(cpuset, ','));
    return if bits.Some? then Mask(bits.value) else ValueError;
  }

  method MaskBits(parts: seq<string>) returns (mask: Option<nat>)
    ensures mask.Some? <==> Masked(parts).Some?
    ensures mask.Some? ==> Exactly(mask.value, Cpus(Masked(parts).value)) && mask.value < Pow2(64)
  {
    var bits: nat := 0;
    ghost var seen: seq<Interval> := [];
    forall k: nat ensures !Bit(0, k) { ZeroHasNoBits(k); }
    for i := 0 to |parts|
      invariant Masked(parts[..i]) == Some(seen) && Small(seen)
      invariant Exactly(bits, Cpus(seen))
    {
      var range := MaskPart(parts[i]);
      if range.None? {
        ErrorSpoils(parts, i);
        return None;
      }
      MaskedNext(parts, i, seen);
      bits := SetRange(bits, range.value.first, range.value.last, Cpus(seen));
      seen := seen + [range.value];
    }
    assert parts[..|parts|] == parts;
    BelowSixtyFour(bits, seen);
    return Some(bits);
  }

  lemma {:induction false} MaskedNext(parts: seq<string>, i: nat, seen: seq<Interval>)
    requires i < |parts| && Masked(parts[..i]) == Some(seen) && Small(seen) && MaskPart(parts[i]).Some?
    ensures
      var range := MaskPart(parts[i]).value;
      && 0 <= range.first <= range.last
      && Masked(parts[..i + 1]) == Some(seen + [range]) && Small(seen + [range])
      && Cpus(seen + [range]) == Cpus(seen) + Span(range)
  {
    assert parts[..i + 1][..i] == parts[..i];
    LowIsNatural(parts[i]);
    var all := seen + [MaskPart(parts[i]).value];
    assert all[..|all| - 1] == seen;
  }

  lemma {:induction false} BelowSixtyFour(bits: nat, seen: seq<Interval>)
    requires Exactly(bits, Cpus(seen)) && Small(seen)
    ensures bits < Pow2(64)
  {
    SmallCpus(seen);
    forall k: nat | k >= 64 ensures !Bit(bits, k) {}
    HighBitsBound(bits, 64);
  }

  ghost predicate Small(intervals: seq<Interval>) {
    forall k | 0 <= k < |intervals| :: 0 <= intervals[k].first <= intervals[k].last < 64
  }

  lemma {:induction false} SmallCpus(intervals: seq<Interval>)
    requires Small(intervals)
    ensures forall c | c in Cpus(intervals) :: 0 <= c < 64
  {
    forall c | c in Cpus(intervals) ensures 0 <= c < 64 {
      InCpus(intervals, c);
    }
  }

  /** A part's low end has no sign: the dash would have split it. */
  lemma {:induction false} LowIsNatural(part: string)
    requires MaskPart(part).Some?
    ensures 0 <= MaskPart(part).value.first <= MaskPart(part).value.last < 64
  {
    var low := Partition(part).low;
    assert forall k | 0 <= k < |low| :: low[k] != '-';
    StripKeeps(low);
  }

  lemma {:induction false} StripKeeps(s: string)
    requires forall k | 0 <= k < |s| :: s[k] != '-'
    ensures forall k | 0 <= k < |Strip(s)| :: Strip(s)[k] != '-'
  {
    LeftKeeps(s);
    RightKeeps(LeftStrip(s));
  }

  lemma {:induction false} LeftKeeps(s: string)
    requires forall k | 0 <= k < |s| :: s[k] != '-'
    ensures forall k | 0 <= k < |LeftStrip(s)| :: LeftStrip(s)[k] != '-'
    decreases |s|
  {
    if s != "" { LeftKeeps(s[1..]); }
  }

  lemma {:induction false} RightKeeps(s: string)
    requires forall k | 0 <= k < |s| :: s[k] != '-'
    ensures forall k | 0 <= k < |RightStrip(s)| :: RightStrip(s)[k] != '-'
    decreases |s|
  {
    if s != "" { RightKeeps(s[..|s| - 1]); }
  }

  method SetRange(bits: nat, low: int, high: int, ghost cpus: set<int>) returns (after: nat)
    requires 0 <= low <= high && Exactly(bits, cpus)
    ensures Exactly(after, cpus + Span(Interval(low, high)))
  {
    after := bits;
    for cpu := low to high + 1
      invariant Exactly(after, cpus + Span(Interval(low, cpu - 1)))
    {
      forall k: nat ensures Bit(Or(after, Pow2(cpu)), k) <==> k in cpus + Span(Interval(low, cpu)) {
        OrBits(after, Pow2(cpu), k);
        PowerHasOneBit(cpu, k);
      }
      after := Or(after, Pow2(cpu));
    }
  }

  // ---- agreement -----------------------------------------------------------------------------

  lemma {:induction false} GrammarReads(parts: seq<string>)
    requires forall k | 0 <= k < |parts| :: GrammarPart(parts[k])
    ensures Masked(parts).Some? ==> Counted(parts) == Masked(parts) && Small(Masked(parts).value)
    ensures Masked(parts).Some? <==> Counted(parts).Some? && Small(Counted(parts).value)
    decreases |parts|
  {
    if parts == [] {
    } else {
      var init := parts[..|parts| - 1];
      GrammarReads(init);
      GrammarPartsAgree(parts[|parts| - 1]);
      if Counted(parts).Some? && Counted(init).Some? && Small(Counted(parts).value) {
        var all := Counted(parts).value;
        assert all[..|all| - 1] == Counted(init).value;
        forall k | 0 <= k < |Counted(init).value|
          ensures 0 <= Counted(init).value[k].first <= Counted(init).value[k].last < 64
        {
          assert Counted(init).value[k] == all[k];
        }
        assert Small(Counted(init).value);
        assert 0 <= all[|all| - 1].first <= all[|all| - 1].last < 64;
      }
    }
  }

  /** For a list the request grammar admits, a mask is made exactly when every range is
      in order and below CPU 64; it then has as many bits set as `cpuset_count` says. */
  lemma {:induction false} MaskAgreesWithCount(spec: string, bits: nat)
    requires Grammar(spec)
    requires Masked(Split(spec, ',')).Some? && Exactly(bits, Cpus(Masked(Split(spec, ',')).value))
    ensures Counted(Split(spec, ',')).Some?
    ensures Population(bits) == |Cpus(Counted(Split(spec, ',')).value)|
  {
    GrammarReads(Split(spec, ','));
    var intervals := Masked(Split(spec, ',')).value;
    PopulationIsSize(bits);
    SmallCpus(intervals);
    forall k ensures k in Bits(bits) <==> k in Cpus(intervals) {
      BitsAreBits(bits, k);
    }
    assert Bits(bits) == Cpus(intervals);
  }

  lemma {:induction false} MaskIsMadeExactly(spec: string)
    requires Grammar(spec)
    ensures Masked(Split(spec, ',')).Some? <==>
        Counted(Split(spec, ',')).Some? && Small(Counted(Split(spec, ',')).value)
  {
    GrammarReads(Split(spec, ','));
  }

  /** Outside the grammar they can differ: a range with no end is one CPU to the mask
      and nonsense to the count. */
  lemma {:induction false} OpenRangeDiffers()
    ensures MaskPart("1-") == Some(Interval(1, 1)) && CountPart("1-") == Nonsense
  {
    var part := "1-";
    assert part[1] == '-';
    assert Partition(part) == Halves("1", true, "") by {
      assert IndexOf(part[1..], '-') == 0;
      assert part[..1] == "1" && part[2..] == "";
    }
    assert IsDigits("1") by { assert IsDigit("1"[0]); }
    DigitsAreNumbers("1");
    assert "1"[..0] == "";
    assert DigitsValue("1") == 1;
  }
}
