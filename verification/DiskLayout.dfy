/** The GPT layout reader `_partition` of agent/runtimes/windows_disk_read.py. A
    partition id is the sixteen bytes Windows stores it as; None stands for an
    expected id that is no UUID, which no entry matches. */
module DiskLayout {
  import opened Basics
  import opened DiskDescriptor

  datatype Bounds = Bounds(start: int, length: int)

  /** A signed 64-bit field. */
  function Signed(data: seq<byte>, at: nat): int
    requires at + 8 <= |data|
  {
    var v := Field(data, at, 8);
    if v < 0x8000_0000_0000_0000 then v else v - 0x1_0000_0000_0000_0000
  }

  predicate LayoutOk(data: seq<byte>) {
    && |data| >= 48 && Field(data, 0, 4) == 1 && 1 <= Field(data, 4, 4) <= 128
    && 48 + Field(data, 4, 4) * 144 <= |data|
  }

  function Count(data: seq<byte>): nat
    requires LayoutOk(data)
  {
    Field(data, 4, 4)
  }

  /** Entry k is a GPT partition with this id. */
  predicate Carries(data: seq<byte>, k: nat, id: Option<seq<byte>>)
    requires LayoutOk(data) && k < Count(data)
  {
    var at := 48 + k * 144;
    Field(data, at, 4) == 1 && Some(data[at + 48..at + 64]) == id
  }

  function BoundsOf(data: seq<byte>, k: nat): Bounds
    requires LayoutOk(data) && k < Count(data)
  {
    Bounds(Signed(data, 48 + k * 144 + 8), Signed(data, 48 + k * 144 + 16))
  }

  predicate Valid(b: Bounds) {
    b.start >= 0 && b.length > 0
  }

  /** A signed field is the number between -2^63 and 2^63 that it is modulo 2^64. */
  lemma {:induction false} SignedExactly(data: seq<byte>, at: nat)
    requires at + 8 <= |data|
    ensures -0x8000_0000_0000_0000 <= Signed(data, at) < 0x8000_0000_0000_0000
    ensures Signed(data, at) == Field(data, at, 8) || Signed(data, at) == Field(data, at, 8) - 0x1_0000_0000_0000_0000
  {
    FieldFits(data, at, 8);
    assert Power(8) == 0x1_0000_0000_0000_0000 by {
      assert Power(2) == 0x1_0000 && Power(4) == 0x1_0000_0000 && Power(6) == 0x1_0000_0000_0000;
    }
  }

  function Power(n: nat): nat {
    if n == 0 then 1 else 256 * Power(n - 1)
  }

  lemma {:induction false} FieldFits(data: seq<byte>, at: nat, n: nat)
    requires at + n <= |data|
    ensures 0 <= Field(data, at, n) < Power(n)
    decreases n
  {
    if n == 0 {
    } else {
      FieldFits(data, at + 1, n - 1);
    }
  }

  /** Entry k carries an id exactly when it is of the GPT style and its bytes 48 to 63 are the
      id's sixteen; its bounds are the signed numbers at its bytes 8 and 16; and those are
      valid when it starts at nothing less than 0 and is longer than 0. */
  lemma {:induction false} EntryExactly(data: seq<byte>, k: nat, id: Option<seq<byte>>)
    requires LayoutOk(data) && k < Count(data)
    ensures Carries(data, k, id) <==>
      (&& Field(data, 48 + 144 * k, 4) == 1 && id.Some? && |id.value| == 16
       && forall i | 0 <= i < 16 :: data[144 * k + 96 + i] == id.value[i])
    ensures BoundsOf(data, k).start == Signed(data, 144 * k + 56)
        && BoundsOf(data, k).length == Signed(data, 144 * k + 64)
    ensures Valid(BoundsOf(data, k)) <==> 0 <= Signed(data, 144 * k + 56) && 1 <= Signed(data, 144 * k + 64)
  {
    var at := 48 + k * 144;
    var name := data[at + 48..at + 64];
    assert forall i | 0 <= i < 16 :: name[i] == data[144 * k + 96 + i];
    if id.Some? && |id.value| == 16 && forall i | 0 <= i < 16 :: data[144 * k + 96 + i] == id.value[i] {
      assert name == id.value;
    }
  }

  /** Entry k alone carries the id. */
  ghost predicate Only(data: seq<byte>, k: nat, id: Option<seq<byte>>)
    requires LayoutOk(data)
  {
    && k < Count(data) && Carries(data, k, id)
    && forall j | 0 <= j < Count(data) && j != k :: !Carries(data, j, id)
  }

  /** `_partition`: the bounds of the one entry that carries the id. It raises, which
      is None, exactly when the layout is no valid GPT, when no entry or more than one
      carries the id, or when the one that does has bounds that are not valid. */
  method Partition(data: seq<byte>, id: Option<seq<byte>>) returns (found: Option<Bounds>)
    ensures found.Some? ==> LayoutOk(data) && Valid(found.value)
    ensures found.Some? ==> exists k: nat | Only(data, k, id) :: found.value == BoundsOf(data, k)
    ensures LayoutOk(data) && found.None? ==> forall k: nat | Only(data, k, id) :: !Valid(BoundsOf(data, k))
  {
    if |data| < 48 { return None; }
    var count := Field(data, 4, 4);
    if Field(data, 0, 4) != 1 || !(1 <= count <= 128) || 48 + count * 144 > |data| { return None; }
    var matches, where := Matching(data, id);
    if matches.None? { return None; }
    if |matches.value| != 1 {
      if |where| > 1 { assert where[0] != where[1]; }
      return None;
    }
    assert Only(data, where[0], id);
    return Some(matches.value[0]);
  }

  /** The entries before `index` that carry the id, all with valid bounds. */
  ghost predicate Found(data: seq<byte>, id: Option<seq<byte>>, index: nat, matches: seq<Bounds>, where: seq<nat>)
    requires LayoutOk(data) && index <= Count(data)
  {
    && |where| == |matches|
    && (forall m | 0 <= m < |where| ::
          where[m] < index && Carries(data, where[m], id) && matches[m] == BoundsOf(data, where[m])
              && Valid(matches[m]))
    && (forall m, n | 0 <= m < n < |where| :: where[m] != where[n])
    && (forall k | 0 <= k < index && Carries(data, k, id) :: k in where)
  }

  lemma {:induction false} FoundNext(
    data: seq<byte>, id: Option<seq<byte>>, index: nat, matches: seq<Bounds>, where: seq<nat>)
    requires LayoutOk(data) && index < Count(data) && Found(data, id, index, matches, where)
    ensures !Carries(data, index, id) ==> Found(data, id, index + 1, matches, where)
    ensures Carries(data, index, id) && Valid(BoundsOf(data, index)) ==>
      Found(data, id, index + 1, matches + [BoundsOf(data, index)], where + [index])
  {
    if Carries(data, index, id) {
      forall k | 0 <= k < index + 1 && Carries(data, k, id) ensures k in where + [index] {
        if k < index { assert k in where; }
      }
    }
  }

  /** Every entry that carries the id, in order; nothing if one has bounds that are not valid. */
  method Matching(data: seq<byte>, id: Option<seq<byte>>) returns (matches: Option<seq<Bounds>>, ghost where: seq<nat>)
    requires LayoutOk(data)
    ensures matches.Some? ==> Found(data, id, Count(data), matches.value, where)
    ensures matches.None? ==> exists k: nat | k < Count(data) && Carries(data, k, id) :: !Valid(BoundsOf(data, k))
  {
    var found: seq<Bounds> := [];
    where := [];
    for index := 0 to Field(data, 4, 4)
      invariant Found(data, id, index, found, where)
    {
      FoundNext(data, id, index, found, where);
      var offset := 48 + index * 144;
      if Field(data, offset, 4) == 1 && Some(data[offset + 48..offset + 64]) == id {
        var bounds := Bounds(Signed(data, offset + 8), Signed(data, offset + 16));
        if bounds.start < 0 || bounds.length <= 0 {
          assert Carries(data, index, id) && !Valid(BoundsOf(data, index));
          return None, where;
        }
        found := found + [bounds];
        where := where + [index];
      }
    }
    return Some(found), where;
  }

  /** The answer rests on the declared entries only. */
  lemma {:induction false} ReadsOnlyEntries(data: seq<byte>, other: seq<byte>, k: nat, id: Option<seq<byte>>)
    requires LayoutOk(data) && k < Count(data)
    requires 48 + Count(data) * 144 <= |other| && other[..48 + Count(data) * 144] == data[..48 + Count(data) * 144]
    ensures LayoutOk(other) && Count(other) == Count(data)
    ensures (Carries(other, k, id) <==> Carries(data, k, id)) && BoundsOf(other, k) == BoundsOf(data, k)
  {
    var size := 48 + Count(data) * 144;
    var at := 48 + k * 144;
    SameSlice(data, other, size, 0, 4);
    SameSlice(data, other, size, 4, 8);
    SameSlice(data, other, size, at, at + 4);
    SameSlice(data, other, size, at + 48, at + 64);
    SameSlice(data, other, size, at + 8, at + 16);
    SameSlice(data, other, size, at + 16, at + 24);
  }
}
