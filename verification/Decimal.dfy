/** Decimal numbers, as Rust's `to_string` writes them and its unsigned `parse`
    reads them. */
module Decimal {
  import opened Wrappers

  predicate IsDigit(c: char) { '0' <= c <= '9' }

  function DigitChar(d: nat): (c: char)
    requires d < 10
    ensures IsDigit(c)
  {
    '0' + d as char
  }

  function DigitValue(c: char): (d: nat)
    requires IsDigit(c)
    ensures d < 10
  {
    (c - '0') as nat
  }

  function ToText(n: nat): (text: string)
    ensures text != "" && forall i | 0 <= i < |text| :: IsDigit(text[i])
  {
    if n < 10 then [DigitChar(n)] else ToText(n / 10) + [DigitChar(n % 10)]
  }

  /** The value of a run of digits, leading zeros and all. */
  function Value(text: string): Option<nat>
  {
    if text == "" then Some(0)
    else
      var last := |text| - 1;
      var high :- Value(text[..last]);
      if IsDigit(text[last]) then Some(10 * high + DigitValue(text[last])) else None
  }

  /** `parse` into an unsigned type that holds up to `max`: a leading `+` is
      allowed, no digits at all are not. */
  function Parse(text: string, max: nat): Option<nat>
  {
    var digits := if text != "" && text[0] == '+' then text[1..] else text;
    if digits == "" then None
    else
      var value :- Value(digits);
      if value <= max then Some(value) else None
  }

  lemma {:induction false} ValueOfText(n: nat)
    ensures Value(ToText(n)) == Some(n)
  {
    if n >= 10 {
      ValueOfText(n / 10);
      assert ToText(n)[..|ToText(n)| - 1] == ToText(n / 10);
    } else {
      assert ToText(n)[..0] == "";
    }
  }

  lemma ParseOfText(n: nat, max: nat)
    ensures Parse(ToText(n), max) == if n <= max then Some(n) else None
  {
    ValueOfText(n);
    assert IsDigit(ToText(n)[0]);
  }

  lemma TextIsInjective(m: nat, n: nat)
    requires ToText(m) == ToText(n)
    ensures m == n
  {
    ValueOfText(m);
    ValueOfText(n);
  }
}
