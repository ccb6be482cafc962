/** Reading CPU lists: the pieces of Python's text handling that agent/cpu.py and
    agent/jobhost.py use, on ASCII text. */
module CpuText {
  import opened Basics

  predicate IsSpace(c: char) {
    c == ' ' || 9 as char <= c <= 13 as char || 28 as char <= c <= 31 as char
  }

  function LeftStrip(s: string): (r: string)
    ensures |r| <= |s| && (r == "" || !IsSpace(r[0]))
    ensures s == "" || !IsSpace(s[0]) ==> r == s
  {
    if s != "" && IsSpace(s[0]) then LeftStrip(s[1..]) else s
  }

  function RightStrip(s: string): (r: string)
    ensures |r| <= |s| && (r == "" || !IsSpace(r[|r| - 1]))
    ensures s == "" || !IsSpace(s[|s| - 1]) ==> r == s
  {
    if s != "" && IsSpace(s[|s| - 1]) then RightStrip(s[..|s| - 1]) else s
  }

  function Strip(s: string): string {
    RightStrip(LeftStrip(s))
  }

  /** Where c first occurs, or the length. */
  function IndexOf(s: string, c: char): (i: nat)
    ensures i <= |s| && (i < |s| ==> s[i] == c) && forall k | 0 <= k < i :: s[k] != c
  {
    if s == "" || s[0] == c then 0
    else
      var rest := IndexOf(s[1..], c);
      rest + 1
  }

  /** `s.split(c)`: the parts between the separators, at least one. */
  function Split(s: string, c: char): (parts: seq<string>)
    ensures |parts| > 0
    decreases |s|
  {
    var i := IndexOf(s, c);
    if i == |s| then [s] else [s[..i]] + Split(s[i + 1..], c)
  }

  datatype Halves = Halves(low: string, dash: bool, high: string)

  /** `part.partition("-")` */
  function Partition(s: string): Halves {
    var i := IndexOf(s, '-');
    if i == |s| then Halves(s, false, "") else Halves(s[..i], true, s[i + 1..])
  }

  /** Digits with single underscores between them. */
  predicate Numeral(s: string) {
    && s != "" && IsDigit(s[0]) && IsDigit(s[|s| - 1])
    && (forall i | 0 <= i < |s| :: IsDigit(s[i]) || s[i] == '_')
    && forall i, j | 0 <= i < |s| && 0 <= j < |s| && j == i + 1 :: IsDigit(s[i]) || IsDigit(s[j])
  }

  function NumeralValue(s: string): nat {
    if s == "" then 0
    else if IsDigit(s[|s| - 1]) then NumeralValue(s[..|s| - 1]) * 10 + (s[|s| - 1] as int - '0' as int)
    else NumeralValue(s[..|s| - 1])
  }

  /** `int(text)`; None is a ValueError. */
  function PyInt(text: string): Option<int> {
    var s := Strip(text);
    if s != "" && s[0] == '-' then if Numeral(s[1..]) then Some(0 - NumeralValue(s[1..]) as int) else None
    else
      var digits := if s != "" && s[0] == '+' then s[1..] else s;
      if Numeral(digits) then Some(NumeralValue(digits)) else None
  }

  /** What Python strips: a space, tab, line and page breaks, and the four separators. */
  lemma {:induction false} SpacesExactly(c: char)
    ensures IsSpace(c) <==> c as int in {9, 10, 11, 12, 13, 28, 29, 30, 31, 32}
  {
  }

  /** A numeral is a digit, or a digit and a numeral with at most one underscore between. */
  lemma {:induction false} NumeralGrammar(s: string)
    ensures Numeral(s) <==>
      (&& s != "" && '0' <= s[0] <= '9'
       && (|| |s| == 1 || Numeral(s[1..]) || (|s| > 2 && s[1] == '_' && Numeral(s[2..]))))
  {
    if |s| > 1 && '0' <= s[0] <= '9' {
      if Numeral(s[1..]) { Follows(s, s[1..], 1); }
      if |s| > 2 && s[1] == '_' && Numeral(s[2..]) { Follows(s, s[2..], 2); }
    }
    if Numeral(s) && |s| > 1 {
      assert forall i | 0 <= i < |s[1..]| :: s[1..][i] == s[i + 1];
      if s[1] == '_' {
        assert IsDigit(s[1]) || IsDigit(s[2]);
        assert forall i | 0 <= i < |s[2..]| :: s[2..][i] == s[i + 2];
      }
    }
  }

  lemma {:induction false} Follows(s: string, rest: string, k: nat)
    requires 1 <= k <= 2 && k < |s| && rest == s[k..] && IsDigit(s[0]) && Numeral(rest)
    requires k == 2 ==> s[1] == '_'
    ensures Numeral(s)
  {
    assert forall i | k <= i < |s| :: s[i] == rest[i - k];
    assert s[|s| - 1] == rest[|rest| - 1];
  }

  /** What a numeral is worth: each digit counts ten times what comes before it, and an
      underscore nothing. */
  lemma {:induction false} NumeralIsDecimal(s: string, c: char)
    ensures NumeralValue("") == 0
    ensures '0' <= c <= '9' ==> NumeralValue(s + [c]) == 10 * NumeralValue(s) + (c as int - 48)
    ensures c == '_' ==> NumeralValue(s + [c]) == NumeralValue(s)
  {
    assert (s + [c])[..|s|] == s;
  }

  /** `int` of a text: of what is left without blanks, a numeral, or one behind a sign. */
  lemma {:induction false} NumbersExactly(text: string)
    ensures
      var s := Strip(text);
      && (Numeral(s) ==> PyInt(text) == Some(NumeralValue(s)))
      && (s != "" && s[0] == '+' && Numeral(s[1..]) ==> PyInt(text) == Some(NumeralValue(s[1..])))
      && (s != "" && s[0] == '-' && Numeral(s[1..]) ==>
            PyInt(text).Some? && PyInt(text).value + NumeralValue(s[1..]) == 0)
      && (PyInt(text).Some? ==> Numeral(s) || (s != "" && (s[0] == '+' || s[0] == '-') && Numeral(s[1..])))
  {
  }

  datatype Interval = Interval(first: int, last: int)

  /** What one part of a list says to `cpuset_count`: nothing, nonsense, or a range. */
  datatype Part = Blank | Nonsense | Range(interval: Interval)

  function CountPart(text: string): Part {
    var part := Strip(text);
    if part == "" then Blank
    else
      var h := Partition(part);
      var first := PyInt(h.low);
      var last := if h.dash then PyInt(h.high) else first;
      if first.None? || last.None? || first.value < 0 || last.value < first.value then Nonsense
      else Range(Interval(first.value, last.value))
  }

  /** What one part says to `affinity_mask`; None is a ValueError. */
  function MaskPart(part: string): Option<Interval> {
    var h := Partition(part);
    var low := PyInt(h.low);
    var high := PyInt(if h.high != "" then h.high else h.low);
    if low.None? || high.None? || high.value >= 64 || low.value > high.value then None
    else Some(Interval(low.value, high.value))
  }

  // ---- the grammar a request's list must match ---------------------------------------

  predicate GrammarPart(part: string) {
    var h := Partition(part);
    IsDigits(h.low) && (if h.dash then IsDigits(h.high) else true)
  }

  /** `^[0-9]+(-[0-9]+)?(,[0-9]+(-[0-9]+)?)*$` */
  predicate Grammar(spec: string) {
    forall k | 0 <= k < |Split(spec, ',')| :: GrammarPart(Split(spec, ',')[k])
  }

  lemma {:induction false} DigitsAreNumbers(s: string)
    requires IsDigits(s)
    ensures Strip(s) == s && PyInt(s) == Some(DigitsValue(s))
  {
    assert IsDigit(s[0]) && IsDigit(s[|s| - 1]);
    SameValue(s);
  }

  lemma {:induction false} SameValue(s: string)
    requires forall i | 0 <= i < |s| :: IsDigit(s[i])
    ensures NumeralValue(s) == DigitsValue(s)
    decreases |s|
  {
    if s != "" { SameValue(s[..|s| - 1]); }
  }

  /** Such a part begins and ends with a digit. */
  lemma {:induction false} GrammarPartStays(part: string)
    requires GrammarPart(part)
    ensures part != "" && Strip(part) == part
  {
    var h := Partition(part);
    assert part[0] == h.low[0] && IsDigit(part[0]);
    assert part[|part| - 1] == (if h.dash then h.high[|h.high| - 1] else h.low[|h.low| - 1]);
  }

  /** On a part the grammar admits the two readers agree: a range if its ends are in
      order, and for the mask also below 64. */
  lemma {:induction false} GrammarPartsAgree(part: string)
    requires GrammarPart(part)
    ensures
      var h := Partition(part);
      var low, high := DigitsValue(h.low), if h.dash then DigitsValue(h.high) else DigitsValue(h.low);
      && CountPart(part) == (if low <= high then Range(Interval(low, high)) else Nonsense)
      && MaskPart(part) == (if low <= high < 64 then Some(Interval(low, high)) else None)
  {
    var h := Partition(part);
    DigitsAreNumbers(h.low);
    if h.dash { DigitsAreNumbers(h.high); }
    GrammarPartStays(part);
    hide Strip, PyInt, DigitsValue;
  }
}
