/** The disk identity descriptor and GPT layout readers of
    agent/runtimes/windows_disk_read.py, over the bytes the driver returned. */
module DiskDescriptor {
  import opened Basics

  type byte = b: int | 0 <= b < 256

  // ---- little-endian numbers ---------------------------------------------------------

  function Power(width: nat): (p: nat)
    ensures p > 0
  {
    if width == 0 then 1 else 256 * Power(width - 1)
  }

  function LeValue(s: seq<byte>): nat {
    if s == [] then 0 else s[0] + 256 * LeValue(s[1..])
  }

  function LeBytes(n: nat, width: nat): (s: seq<byte>)
    ensures |s| == width
  {
    if width == 0 then [] else [n % 256] + LeBytes(n / 256, width - 1)
  }

  lemma {:induction false} LeRoundTrip(n: nat, width: nat)
    requires n < Power(width)
    ensures LeValue(LeBytes(n, width)) == n
    decreases width
  {
    if width == 0 {
    } else {
      LeRoundTrip(n / 256, width - 1);
      assert LeBytes(n, width)[1..] == LeBytes(n / 256, width - 1);
    }
  }

  lemma {:induction false} LeBytesOf(s: seq<byte>)
    ensures LeBytes(LeValue(s), |s|) == s && LeValue(s) < Power(|s|)
    decreases |s|
  {
    if s == [] {
    } else {
      LeBytesOf(s[1..]);
      assert LeValue(s) / 256 == LeValue(s[1..]) && LeValue(s) % 256 == s[0];
    }
  }

  lemma {:induction false} Widths()
    ensures Power(2) == 0x1_0000 && Power(4) == 0x1_0000_0000 && Power(8) == 0x1_0000_0000_0000_0000
  {
    assert Power(1) == 256 && Power(3) == 0x100_0000 && Power(5) == 0x100_0000_0000;
    assert Power(7) == 0x100_0000_0000_0000;
  }

  /** `struct.unpack_from` of one field. */
  function Field(data: seq<byte>, at: nat, width: nat): nat
    requires at + width <= |data|
  {
    LeValue(data[at..at + width])
  }

  // ---- slices ------------------------------------------------------------------------------

  lemma {:induction false} Middle(a: seq<byte>, b: seq<byte>, c: seq<byte>)
    ensures (a + b + c)[|a|..|a| + |b|] == b
  {
  }

  lemma {:induction false} Join(d: seq<byte>, i: nat, j: nat, k: nat)
    requires i <= j <= k <= |d|
    ensures d[i..j] + d[j..k] == d[i..k]
  {
  }

  lemma {:induction false} Inner(d: seq<byte>, size: nat, i: nat, j: nat)
    requires i <= j <= size <= |d|
    ensures d[..size][i..j] == d[i..j]
  {
  }

  // ---- the descriptor -------------------------------------------------------------------

  /** An identifier's sixteen fixed bytes. `next` is the distance to the one after it. */
  datatype Head = Head(code: nat, kind: nat, length: nat, next: nat, association: nat)

  /** `pad` is the bytes between the value and the next identifier, or the end. */
  datatype Identifier = Identifier(head: Head, value: seq<byte>, pad: seq<byte>)

  function HeadOf(s: seq<byte>): Head
    requires |s| == 16
  {
    Head(Field(s, 0, 4), Field(s, 4, 4), Field(s, 8, 2), Field(s, 10, 2), Field(s, 12, 4))
  }

  /** Where identifier `h` at `offset` ends, or nothing where the reader raises. */
  function EndOf(h: Head, size: nat, offset: nat, last: bool): Option<nat> {
    if h.length == 0 || offset + 16 + h.length > size then None
    else if last then Some(size)
    else if h.next < 16 + h.length || offset + h.next >= size then None
    else Some(offset + h.next)
  }

  function IdentifierAt(data: seq<byte>, offset: nat, end: nat): Identifier
    requires offset + 16 <= |data| && offset + 16 + HeadOf(data[offset..offset + 16]).length <= end <= |data|
  {
    var h := HeadOf(data[offset..offset + 16]);
    Identifier(h, data[offset + 16..offset + 16 + h.length], data[offset + 16 + h.length..end])
  }

  /** The chain of `left` identifiers at `offset`, or nothing where the reader raises. */
  function Walk(data: seq<byte>, size: nat, offset: nat, left: nat): Option<seq<Identifier>>
    requires size <= |data| && left > 0
    decreases left
  {
    if offset + 16 > size then None
    else
      var h := HeadOf(data[offset..offset + 16]);
      var end := EndOf(h, size, offset, left == 1);
      if end.None? then None
      else
        var found := IdentifierAt(data, offset, end.value);
        if left == 1 then Some([found])
        else
          var rest := Walk(data, size, end.value, left - 1);
          if rest.None? then None else Some([found] + rest.value)
  }

  predicate HeaderOk(data: seq<byte>) {
    |data| >= 12 && 12 <= Field(data, 4, 4) <= |data| && 1 <= Field(data, 8, 4) <= 64
  }

  function Chain(data: seq<byte>): Option<seq<Identifier>> {
    if !HeaderOk(data) then None else Walk(data, Field(data, 4, 4), 12, Field(data, 8, 4))
  }

  // ---- hexadecimal ---------------------------------------------------------------------------

  const DIGITS := "0123456789ABCDEF"

  /** `value.hex().upper()` */
  function Hex(value: seq<byte>): string {
    if value == [] then "" else [DIGITS[value[0] / 16], DIGITS[value[0] % 16]] + Hex(value[1..])
  }

  lemma {:induction false} HexIsInjective(a: seq<byte>, b: seq<byte>)
    requires Hex(a) == Hex(b)
    ensures a == b
    decreases |a|
  {
    HexLength(a);
    HexLength(b);
    if a == [] {
    } else {
      assert Hex(a)[0] == DIGITS[a[0] / 16] && Hex(b)[0] == DIGITS[b[0] / 16];
      assert Hex(a)[1] == DIGITS[a[0] % 16] && Hex(b)[1] == DIGITS[b[0] % 16];
      DigitsDiffer(a[0] / 16, b[0] / 16);
      DigitsDiffer(a[0] % 16, b[0] % 16);
      assert Hex(a)[2..] == Hex(a[1..]) && Hex(b)[2..] == Hex(b[1..]);
      HexIsInjective(a[1..], b[1..]);
      assert a == [a[0]] + a[1..] && b == [b[0]] + b[1..];
    }
  }

  lemma {:induction false} HexLength(a: seq<byte>)
    ensures |Hex(a)| == 2 * |a|
    decreases |a|
  {
    if a == [] {
    } else {
      HexLength(a[1..]);
    }
  }

  lemma {:induction false} DigitsDiffer(i: int, j: int)
    requires 0 <= i < 16 && 0 <= j < 16 && DIGITS[i] == DIGITS[j]
    ensures i == j
  {
  }

  predicate OwnBinary(i: Identifier) {
    i.head.association == 0 && i.head.code == 1
  }

  /** The values of the binary identifiers of the disk itself, in hexadecimal. */
  function Names(chain: seq<Identifier>): set<string> {
    if chain == [] then {}
    else
      var last := chain[|chain| - 1];
      Names(chain[..|chain| - 1]) + (if OwnBinary(last) then {Hex(last.value)} else {})
  }

  lemma {:induction false} NamesAreValues(chain: seq<Identifier>, value: seq<byte>)
    ensures Hex(value) in Names(chain) <==> exists k | 0 <= k < |chain| ::
        chain[k].head.association == 0 && chain[k].head.code == 1 && chain[k].value == value
    decreases |chain|
  {
    if chain == [] {
    } else {
      var init, last := chain[..|chain| - 1], chain[|chain| - 1];
      NamesAreValues(init, value);
      if Hex(value) == Hex(last.value) { HexIsInjective(value, last.value); }
      if k :| 0 <= k < |init| && OwnBinary(init[k]) && init[k].value == value {
        assert chain[k].value == value;
      }
    }
  }

  // ---- writing a chain -------------------------------------------------------------------------

  function HeadBytes(h: Head): (s: seq<byte>)
    ensures |s| == 16
  {
    LeBytes(h.code, 4) + LeBytes(h.kind, 4) + LeBytes(h.length, 2) + LeBytes(h.next, 2) + LeBytes(h.association, 4)
  }

  function Written(i: Identifier): (s: seq<byte>)
    ensures |s| == 16 + |i.value| + |i.pad|
  {
    HeadBytes(i.head) + i.value + i.pad
  }

  function Serialized(chain: seq<Identifier>): seq<byte> {
    if chain == [] then [] else Written(chain[0]) + Serialized(chain[1..])
  }

  predicate HeadFits(h: Head) {
    && h.code < 0x1_0000_0000 && h.kind < 0x1_0000_0000 && h.length < 0x1_0000
    && h.next < 0x1_0000 && h.association < 0x1_0000_0000
  }

  /** Fields fit, values are not empty, and each but the last says how far the next is. */
  predicate WellFormed(chain: seq<Identifier>)
    decreases |chain|
  {
    && chain != [] && HeadFits(chain[0].head) && 1 <= chain[0].head.length == |chain[0].value|
    && (|chain| > 1 ==> chain[0].head.next == 16 + |chain[0].value| + |chain[0].pad| && WellFormed(chain[1..]))
  }

  function Descriptor(version: nat, chain: seq<Identifier>): seq<byte> {
    LeBytes(version, 4) + LeBytes(12 + |Serialized(chain)|, 4) + LeBytes(|chain|, 4) + Serialized(chain)
  }

  // ---- reading back what was written ----------------------------------------------------------------

  lemma {:induction false} FieldOf(before: seq<byte>, n: nat, width: nat, after: seq<byte>)
    requires n < Power(width)
    ensures Field(before + LeBytes(n, width) + after, |before|, width) == n
  {
    assert (before + LeBytes(n, width) + after)[|before|..|before| + width] == LeBytes(n, width);
    LeRoundTrip(n, width);
  }

  lemma {:induction false} HeadReadsBack(h: Head)
    requires HeadFits(h)
    ensures HeadOf(HeadBytes(h)) == h
  {
    Widths();
    var b0, b1, b2, b3, b4 :=
      LeBytes(h.code, 4), LeBytes(h.kind, 4), LeBytes(h.length, 2), LeBytes(h.next, 2), LeBytes(h.association, 4);
    var s := HeadBytes(h);
    FieldOf([], h.code, 4, b1 + b2 + b3 + b4);
    assert s == [] + b0 + (b1 + b2 + b3 + b4);
    FieldOf(b0, h.kind, 4, b2 + b3 + b4);
    assert s == b0 + b1 + (b2 + b3 + b4);
    FieldOf(b0 + b1, h.length, 2, b3 + b4);
    assert s == b0 + b1 + b2 + (b3 + b4);
    FieldOf(b0 + b1 + b2, h.next, 2, b4);
    FieldOf(b0 + b1 + b2 + b3, h.association, 4, []);
    assert s == b0 + b1 + b2 + b3 + b4 + [];
  }

  lemma {:induction false} WalkReadsBack(data: seq<byte>, size: nat, offset: nat, chain: seq<Identifier>)
    requires offset <= size <= |data| && WellFormed(chain) && data[offset..size] == Serialized(chain)
    ensures Walk(data, size, offset, |chain|) == Some(chain)
    decreases |chain|
  {
    var i, rest := chain[0], chain[1..];
    FirstHolds(data, size, offset, chain);
    assert |chain| == |rest| + 1 && chain == [i] + rest;
    hide Holds, Serialized;
    if rest == [] {
      OneRead(data, size, offset, i, []);
    } else {
      WalkReadsBack(data, size, offset + i.head.next, rest);
      OneRead(data, size, offset, i, rest);
    }
  }

  lemma {:induction false} FirstHolds(data: seq<byte>, size: nat, offset: nat, chain: seq<Identifier>)
    requires offset <= size <= |data| && WellFormed(chain) && data[offset..size] == Serialized(chain)
    ensures Holds(data, offset, chain[0])
    ensures
      var next := offset + |Written(chain[0])|;
      && next <= size && data[next..size] == Serialized(chain[1..])
      && (|chain| > 1 ==> next < size) && (|chain| == 1 ==> next == size)
  {
    SplitAt(data, offset, size, Written(chain[0]), Serialized(chain[1..]));
    HoldsWritten(data, offset, chain[0]);
    if |chain| > 1 { SerializedIsNotEmpty(chain[1..]); }
  }

  /** The bytes at `offset` are those of identifier `i`. */
  predicate Holds(data: seq<byte>, offset: nat, i: Identifier) {
    var mid := offset + 16 + |i.value|;
    && mid + |i.pad| <= |data| && HeadOf(data[offset..offset + 16]) == i.head
    && data[offset + 16..mid] == i.value && data[mid..mid + |i.pad|] == i.pad
  }

  lemma {:induction false} SplitAt(d: seq<byte>, from: nat, to: nat, a: seq<byte>, b: seq<byte>)
    requires from <= to <= |d| && d[from..to] == a + b
    ensures to == from + |a| + |b| && d[from..from + |a|] == a && d[from + |a|..to] == b
  {
    assert d[from..to][..|a|] == a && d[from..to][|a|..] == b;
  }

  lemma {:induction false} HoldsWritten(data: seq<byte>, offset: nat, i: Identifier)
    requires HeadFits(i.head) && offset + |Written(i)| <= |data| && data[offset..offset + |Written(i)|] == Written(i)
    ensures Holds(data, offset, i)
  {
    var end := offset + |Written(i)|;
    HeadReadsBack(i.head);
    SplitAt(data, offset, end, HeadBytes(i.head) + i.value, i.pad);
    SplitAt(data, offset, end - |i.pad|, HeadBytes(i.head), i.value);
  }

  lemma {:induction false} SerializedIsNotEmpty(chain: seq<Identifier>)
    requires chain != []
    ensures |Serialized(chain)| > 0
  {
  }

  /** One step of the walk. */
  lemma {:induction false} OneRead(data: seq<byte>, size: nat, offset: nat, i: Identifier, rest: seq<Identifier>)
    requires size <= |data| && i.head.length == |i.value| > 0 && Holds(data, offset, i)
    requires rest == [] ==> size == offset + |Written(i)|
    requires rest != [] ==>
      && i.head.next == |Written(i)| && offset + i.head.next < size
      && Walk(data, size, offset + i.head.next, |rest|) == Some(rest)
    ensures Walk(data, size, offset, |rest| + 1) == Some([i] + rest)
  {
    var end := if rest == [] then size else offset + i.head.next;
    assert EndOf(i.head, size, offset, rest == []) == Some(end);
    assert IdentifierAt(data, offset, end) == i;
    if rest == [] { assert [i] + rest == [i]; }
  }

  /** Reading inverts writing: for every chain of 1 to 64 well-formed identifiers, with
      any padding and any bytes after the descriptor, the reader finds that chain. */
  lemma {:induction false} ReadsBack(version: nat, chain: seq<Identifier>, junk: seq<byte>)
    requires WellFormed(chain) && |chain| <= 64 && version < 0x1_0000_0000
    requires 12 + |Serialized(chain)| < 0x1_0000_0000
    ensures Chain(Descriptor(version, chain) + junk) == Some(chain)
  {
    var s := Serialized(chain);
    var v, z, c := LeBytes(version, 4), LeBytes(12 + |s|, 4), LeBytes(|chain|, 4);
    var data := Descriptor(version, chain) + junk;
    Middle([], Descriptor(version, chain), junk);
    SplitAt(data, 0, 12 + |s|, v + z + c, s);
    SplitAt(data, 0, 12, v + z, c);
    SplitAt(data, 0, 8, v, z);
    Widths();
    LeRoundTrip(12 + |s|, 4);
    LeRoundTrip(|chain|, 4);
    WalkReadsBack(data, 12 + |s|, 12, chain);
  }

  // ---- what is accepted is a written chain -----------------------------------------------------------

  lemma {:induction false} FieldBytes(data: seq<byte>, at: nat, width: nat)
    requires at + width <= |data|
    ensures LeBytes(Field(data, at, width), width) == data[at..at + width] && Field(data, at, width) < Power(width)
  {
    LeBytesOf(data[at..at + width]);
  }

  lemma {:induction false} HeadIsWritten(s: seq<byte>)
    requires |s| == 16
    ensures HeadBytes(HeadOf(s)) == s && HeadFits(HeadOf(s))
  {
    Widths();
    FieldBytes(s, 0, 4);
    FieldBytes(s, 4, 4);
    FieldBytes(s, 8, 2);
    FieldBytes(s, 10, 2);
    FieldBytes(s, 12, 4);
    assert s[0..4] + s[4..8] + s[8..10] + s[10..12] + s[12..16] == s;
  }

  lemma {:induction false} OneIsWritten(data: seq<byte>, offset: nat, end: nat)
    requires offset + 16 <= |data| && offset + 16 + HeadOf(data[offset..offset + 16]).length <= end <= |data|
    ensures
      var i := IdentifierAt(data, offset, end);
      HeadFits(i.head) && Written(i) == data[offset..end] && |i.value| == i.head.length
  {
    var s := data[offset..offset + 16];
    HeadIsWritten(s);
    Join(data, offset, offset + 16, offset + 16 + HeadOf(s).length);
    Join(data, offset, offset + 16 + HeadOf(s).length, end);
  }

  lemma {:induction false} WalkIsWritten(data: seq<byte>, size: nat, offset: nat, left: nat, chain: seq<Identifier>)
    requires size <= |data| && left > 0 && Walk(data, size, offset, left) == Some(chain)
    ensures offset <= size && |chain| == left && WellFormed(chain) && Serialized(chain) == data[offset..size]
    decreases left
  {
    var end := EndOf(HeadOf(data[offset..offset + 16]), size, offset, left == 1).value;
    var i := IdentifierAt(data, offset, end);
    OneIsWritten(data, offset, end);
    if left > 1 {
      var rest := Walk(data, size, end, left - 1).value;
      WalkIsWritten(data, size, end, left - 1, rest);
      assert |Written(i)| == end - offset;
      Both(data, offset, end, size, i, rest);
    } else {
      Alone(i);
    }
  }

  lemma {:induction false} Both(data: seq<byte>, offset: nat, end: nat, size: nat, i: Identifier, rest: seq<Identifier>)
    requires offset <= end <= size <= |data| && Written(i) == data[offset..end] && Serialized(rest) == data[end..size]
    ensures Serialized([i] + rest) == data[offset..size]
    ensures HeadFits(i.head) && 1 <= i.head.length == |i.value| && i.head.next == 16 + |i.value| + |i.pad|
        && WellFormed(rest)
      ==> WellFormed([i] + rest)
  {
    Join(data, offset, end, size);
    assert ([i] + rest)[1..] == rest;
  }

  lemma {:induction false} Alone(i: Identifier)
    ensures Serialized([i]) == Written(i)
    ensures HeadFits(i.head) && 1 <= i.head.length == |i.value| ==> WellFormed([i])
  {
    assert [i][1..] == [];
    assert Serialized([i]) == Written(i) + [];
  }

  /** And nothing else is accepted: what the reader takes is, up to its declared size,
      the writing of the chain it finds. */
  lemma {:induction false} AcceptsOnlyWritten(data: seq<byte>)
    requires Chain(data).Some?
    ensures
      var chain := Chain(data).value;
      && WellFormed(chain) && 1 <= |chain| <= 64
      && data[..Field(data, 4, 4)] == Descriptor(Field(data, 0, 4), chain)
  {
    WalkIsWritten(data, Field(data, 4, 4), 12, Field(data, 8, 4), Chain(data).value);
    HeaderIsWritten(data, Chain(data).value);
  }

  lemma {:induction false} HeaderIsWritten(data: seq<byte>, chain: seq<Identifier>)
    requires HeaderOk(data) && |chain| == Field(data, 8, 4) && Serialized(chain) == data[12..Field(data, 4, 4)]
    ensures data[..Field(data, 4, 4)] == Descriptor(Field(data, 0, 4), chain)
  {
    var size := Field(data, 4, 4);
    FieldBytes(data, 0, 4);
    FieldBytes(data, 4, 4);
    FieldBytes(data, 8, 4);
    Join(data, 0, 4, 8);
    Join(data, 0, 8, 12);
    Join(data, 0, 12, size);
    assert data[..size] == data[0..size];
  }

  /** Nothing past the declared size has a say. */
  lemma {:induction false} ReadsOnlyDeclared(data: seq<byte>, other: seq<byte>)
    requires HeaderOk(data) && Field(data, 4, 4) <= |other| && other[..Field(data, 4, 4)] == data[..Field(data, 4, 4)]
    ensures Chain(other) == Chain(data)
  {
    var size := Field(data, 4, 4);
    SameSlice(data, other, size, 4, 8);
    SameSlice(data, other, size, 8, 12);
    SameWalk(data, other, size, 12, Field(data, 8, 4));
  }

  lemma {:induction false} SameSlice(data: seq<byte>, other: seq<byte>, size: nat, from: nat, to: nat)
    requires from <= to <= size <= |data| && size <= |other| && other[..size] == data[..size]
    ensures other[from..to] == data[from..to]
  {
    Inner(data, size, from, to);
    Inner(other, size, from, to);
  }

  lemma {:induction false} SameWalk(data: seq<byte>, other: seq<byte>, size: nat, offset: nat, left: nat)
    requires size <= |data| && size <= |other| && other[..size] == data[..size] && left > 0
    ensures Walk(other, size, offset, left) == Walk(data, size, offset, left)
    decreases left
  {
    if offset + 16 <= size {
      SameSlice(data, other, size, offset, offset + 16);
      var h := HeadOf(data[offset..offset + 16]);
      var end := EndOf(h, size, offset, left == 1);
      if end.Some? {
        SameSlice(data, other, size, offset + 16, offset + 16 + h.length);
        SameSlice(data, other, size, offset + 16 + h.length, end.value);
        if left > 1 { SameWalk(data, other, size, end.value, left - 1); }
      }
    }
  }

  // ---- the reader, as it runs -----------------------------------------------------------------------

  lemma {:induction false} NamesJoin(i: Identifier, rest: seq<Identifier>)
    ensures Names([i] + rest) == (if OwnBinary(i) then {Hex(i.value)} else {}) + Names(rest)
    decreases |rest|
  {
    if rest == [] {
      assert [i] + rest == [i] && [i][..0] == [];
    } else {
      var init := rest[..|rest| - 1];
      NamesJoin(i, init);
      assert ([i] + rest)[..|rest|] == [i] + init;
    }
  }

  /** What is left to read, and the names found so far, make up the whole. */
  ghost predicate Remaining(data: seq<byte>, size: nat, count: nat, offset: nat, left: nat, out: set<string>)
    requires size <= |data| && count > 0
  {
    var whole := Walk(data, size, 12, count);
    if left == 0 then whole.Some? && Names(whole.value) == out
    else
      var rest := Walk(data, size, offset, left);
      (whole.Some? <==> rest.Some?) && (whole.Some? ==> Names(whole.value) == out + Names(rest.value))
  }

  lemma {:induction false} RemainingNext(
    data: seq<byte>, size: nat, count: nat, offset: nat, left: nat, out: set<string>)
    requires size <= |data| && count > 0 && left > 0 && Remaining(data, size, count, offset, left, out)
    requires offset + 16 <= size && EndOf(HeadOf(data[offset..offset + 16]), size, offset, left == 1).Some?
    ensures
      var h := HeadOf(data[offset..offset + 16]);
      var end := EndOf(h, size, offset, left == 1).value;
      var value := data[offset + 16..offset + 16 + h.length];
      Remaining(data, size, count, end, left - 1,
          out + (if h.association == 0 && h.code == 1 then {Hex(value)} else {}))
  {
    var rest := Walk(data, size, offset, left);
    if rest.Some? {
      NamesJoin(rest.value[0], rest.value[1..]);
      assert rest.value == [rest.value[0]] + rest.value[1..];
      if left == 1 { assert Names([]) == {}; }
    }
  }

  /** One identifier read: where the next begins, and its name if it is the disk's own. */
  method ReadOne(data: seq<byte>, size: nat, offset: nat, last: bool) returns (end: nat, name: Option<string>, ok: bool)
    requires size <= |data|
    ensures ok <==> offset + 16 <= size && EndOf(HeadOf(data[offset..offset + 16]), size, offset, last).Some?
    ensures ok ==>
      var h := HeadOf(data[offset..offset + 16]);
      && EndOf(h, size, offset, last) == Some(end)
      && name == (if h.association == 0 && h.code == 1
                  then Some(Hex(data[offset + 16..offset + 16 + h.length])) else None)
  {
    end, name, ok := size, None, false;
    if offset + 16 > size { return; }
    var h := HeadOf(data[offset..offset + 16]);
    if h.length == 0 || offset + 16 + h.length > size { return; }
    if h.association == 0 && h.code == 1 { name := Some(Hex(data[offset + 16..offset + 16 + h.length])); }
    if !last {
      if h.next < 16 + h.length || offset + h.next >= size { return; }
      end := offset + h.next;
    }
    ok := true;
  }

  /** `_identifiers`; None is a RuntimeError. */
  method Identifiers(data: seq<byte>) returns (found: Option<set<string>>)
    ensures found.Some? <==> Chain(data).Some?
    ensures found.Some? ==> found.value == Names(Chain(data).value)
  {
    if |data| < 12 { return None; }
    var size, count := Field(data, 4, 4), Field(data, 8, 4);
    if !(12 <= size <= |data|) || !(1 <= count <= 64) { return None; }
    found := ReadChain(data, size, count);
  }

  method ReadChain(data: seq<byte>, size: nat, count: nat) returns (found: Option<set<string>>)
    requires size <= |data| && count > 0
    ensures found.Some? <==> Walk(data, size, 12, count).Some?
    ensures found.Some? ==> found.value == Names(Walk(data, size, 12, count).value)
  {
    var out: set<string> := {};
    var offset: nat := 12;
    for index := 0 to count
      invariant Remaining(data, size, count, offset, count - index, out)
    {
      var end, name, ok := ReadOne(data, size, offset, index + 1 == count);
      if !ok { return None; }
      RemainingNext(data, size, count, offset, count - index, out);
      if name.Some? { out := out + {name.value}; }
      offset := end;
    }
    return Some(out);
  }
}
