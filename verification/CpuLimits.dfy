/** The two ways a unit's CPU is capped, as one number (agent/cpu.py `ceiling`) and as
    a Windows Job Object rate (agent/jobhost.py `cpu_rate`). Over the reals: the
    rounding written in the code is kept, that of binary fractions is not. */
module CpuLimits {
  import opened Basics
  import opened CpuText
  import opened CpuSet

  /** `round`: to the nearest whole number, a tie to the even one. */
  function Round(x: real): int {
    var low := x.Floor;
    if x - low as real < 0.5 then low
    else if x - low as real > 0.5 then low + 1
    else if low % 2 == 0 then low else low + 1
  }

  lemma {:induction false} RoundIsNearest(x: real)
    ensures x - 0.5 <= Round(x) as real <= x + 0.5
  {
  }

  lemma {:induction false} RoundIsMonotone(x: real, y: real)
    requires x <= y
    ensures Round(x) <= Round(y)
  {
  }

  /** Two decimals, as the card shows them. */
  function Shown(x: real): real {
    if x == x.Floor as real then x else Round(x * 100.0) as real / 100.0
  }

  /** `ceiling`, for a quota in cores or none that could be read. Nothing exactly when
      neither cap says anything; otherwise the lower cap, to within half a hundredth,
      and exactly when that is a whole number of cores. */
  method Ceiling(cpuset: string, quota: Option<real>) returns (cores: Option<real>)
    ensures
      var covered := Counted(Split(cpuset, ','));
      var pinned := covered.Some? && Cpus(covered.value) != {};
      var limited := quota.Some? && quota.value > 0.0;
      && (cores.None? <==> !pinned && !limited)
      && (cores.Some? ==>
            var lowest := if pinned && (!limited || |Cpus(covered.value)| as real <= quota.value)
                          then |Cpus(covered.value)| as real else quota.value;
            && lowest - 0.005 <= cores.value <= lowest + 0.005
            && (lowest == lowest.Floor as real ==> cores.value == lowest))
  {
    var caps: seq<real> := [];
    var width := CpusetCount(cpuset);
    if width != 0 { caps := caps + [width as real]; }
    if quota.Some? && quota.value > 0.0 { caps := caps + [quota.value]; }
    if caps == [] { return None; }
    var lowest := caps[0];
    for k := 1 to |caps|
      invariant lowest in caps[..k] && forall j | 0 <= j < k :: lowest <= caps[j]
    {
      if caps[k] < lowest { lowest := caps[k]; }
    }
    RoundIsNearest(lowest * 100.0);
    return Some(Shown(lowest));
  }

  /** `cpu_rate`: cycles per 10000 across the machine. */
  function CpuRate(cpus: real, count: nat): Option<int>
    requires count > 0
  {
    if cpus <= 0.0 then None else Some(Max(1, Min(10000, Round(cpus / count as real * 10000.0))))
  }

  /** A limit always leaves the unit some CPU and never asks for more than the machine;
      between those it is kept to half a cycle, and a higher limit never gets less. */
  lemma {:induction false} CpuRateIsFair(cpus: real, more: real, count: nat)
    requires count > 0 && 0.0 < cpus <= more
    ensures 1 <= CpuRate(cpus, count).value <= CpuRate(more, count).value <= 10000
    ensures
      var exact, rate := cpus / count as real * 10000.0, CpuRate(cpus, count).value as real;
      1.0 <= exact <= 10000.0 ==> exact - 0.5 <= rate <= exact + 0.5
  {
    var share, larger := cpus / count as real, more / count as real;
    assert share * count as real == cpus && larger * count as real == more;
    if share > larger { assert share * count as real > larger * count as real; }
    RoundIsMonotone(share * 10000.0, larger * 10000.0);
    RoundIsNearest(share * 10000.0);
  }
}
