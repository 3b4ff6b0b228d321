/**
 * src/currency.rs: a currency code is an uppercase letter, then uppercase
 * letters, digits and `-`, `_`, `.`, `'`, ending in an uppercase letter when
 * longer than one character.  The scan takes the longest run and does not
 * backtrack.
 */
module Currencies {
  import opened Nom

  /** Characters allowed after the first. */
  predicate IsTailChar(c: char) {
    IsAsciiUpper(c) || IsDigit(c) || c == '-' || c == '_' || c == '.' || c == '\''
  }

  /** A well-formed currency code. */
  predicate IsCurrency(c: string) {
    c != [] && IsAsciiUpper(c[0]) && IsAsciiUpper(c[|c| - 1]) &&
    forall i :: 0 < i < |c| ==> IsTailChar(c[i])
  }

  /** `parse`: an uppercase letter, the longest run of tail characters, and a
    * check that this run is empty or ends in an uppercase letter; the value is
    * the text matched (`as_str`). */
  function Parse(s: string): (r: Res<string>)
    ensures !r.Failure?
    ensures r.Ok? ==> s != [] && IsAsciiUpper(s[0])
  {
    var head := if s != [] && IsAsciiUpper(s[0]) then Ok(s[0], s[1..]) else Error;
    if !head.Ok? then Error else
    var tail := TakeWhile(IsTailChar, head.rest);
    if tail.value != [] && !IsAsciiUpper(tail.value[|tail.value| - 1]) then Error else
    Ok([s[0]] + tail.value, tail.rest)
  }

  /** What is accepted is a well-formed code, taken as long as possible. */
  lemma ParseShape(s: string)
    requires Parse(s).Ok?
    ensures IsCurrency(Parse(s).value) && s == Parse(s).value + Parse(s).rest
    ensures Parse(s).rest == [] || !IsTailChar(Parse(s).rest[0])
  {
    var tail := TakeWhile(IsTailChar, s[1..]);
    var c := [s[0]] + tail.value;
    assert forall i :: 0 < i < |c| ==> c[i] == tail.value[i - 1];
    Reassemble(s, s[0], tail.value, tail.rest, tail.rest, []);
    assert s == c + tail.rest;
  }

  /** A currency code followed by text that cannot extend it reads back whole. */
  lemma ParseCurrency(c: string, rest: string)
    requires IsCurrency(c)
    requires rest == [] || !IsTailChar(rest[0])
    ensures Parse(c + rest) == Ok(c, rest)
  {
    var s := c + rest;
    assert s[1..] == c[1..] + rest;
    SpanOfPrefix(IsTailChar, c[1..], rest);
    assert SpanOf(IsTailChar, rest) == 0;
    var n := |c| - 1;
    assert s[1..][..n] == c[1..] && s[1..][n..] == rest;
    HeadTail(c);
  }

  /** The longest run decides: when it ends in anything but an uppercase letter
    * the scan fails, even if a shorter prefix would have been a valid code. */
  lemma LongestRunDecides(c: string, rest: string)
    requires |c| >= 2 && IsAsciiUpper(c[0]) && !IsAsciiUpper(c[|c| - 1])
    requires forall i :: 0 < i < |c| ==> IsTailChar(c[i])
    requires rest == [] || !IsTailChar(rest[0])
    ensures Parse(c + rest).Error?
  {
    var s := c + rest;
    assert s[1..] == c[1..] + rest;
    SpanOfPrefix(IsTailChar, c[1..], rest);
    assert SpanOf(IsTailChar, rest) == 0;
    var n := |c| - 1;
    assert s[1..][..n] == c[1..];
  }

  /** A code must start with an uppercase letter, so `1SD` and `-US` fail. */
  lemma NeedsUppercaseStart(s: string)
    requires s == [] || !IsAsciiUpper(s[0])
    ensures Parse(s).Error?
  {
  }
}
