/** Small shared vocabulary: optional values, Python's notion of an absent text
    field, and decimal digits. */
module Basics {

  datatype Option<+T> = None | Some(value: T)

  /** A text field as Python tests it: both a missing key and "" are false. */
  predicate Present(o: Option<string>) {
    o.Some? && o.value != ""
  }

  function Text(o: Option<string>): string {
    if o.Some? then o.value else ""
  }

  predicate IsDigit(c: char) {
    '0' <= c <= '9'
  }

  predicate IsDigits(s: string) {
    s != "" && forall i | 0 <= i < |s| :: IsDigit(s[i])
  }

  /** The number a digit string denotes, most significant digit first. */
  function DigitsValue(s: string): (n: nat)
    requires forall i | 0 <= i < |s| :: IsDigit(s[i])
  {
    if s == "" then 0
    else
      assert IsDigit(s[|s| - 1]);
      DigitsValue(s[..|s| - 1]) * 10 + (s[|s| - 1] as int - '0' as int)
  }

  function Max(a: int, b: int): int {
    if a < b then b else a
  }

  function Min(a: int, b: int): int {
    if a < b then a else b
  }

  /** Some member of a set that has one. */
  lemma {:induction false} Member<X>(s: set<X>) returns (x: X)
    requires s != {}
    ensures x in s
  {
    x :| x in s;
  }
}
