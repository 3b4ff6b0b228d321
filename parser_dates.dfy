/**
 * src/parser/date.rs: the date scanner of the newer parser.  Each field is a
 * run of digits of any length; the year must fit 16 bits and be positive, the
 * month lie in 1..12 and the day in 1..31.  It never fails irrecoverably.
 */
module ParserDates {
  import opened Nom

  datatype Date = Date(year: nat, monthOfYear: nat, dayOfMonth: nat)

  /** A digit run read as an unsigned number of at most `max`, kept only when
    * it lies within `lo..hi`. */
  function Field(s: string, max: nat, lo: nat, hi: nat): (r: Res<nat>)
    ensures !r.Failure?
    ensures r.Ok? ==> lo <= r.value <= hi && r.value <= max
    ensures r.Ok? ==> |r.rest| < |s|
  {
    var d := Digit1(s);
    if !d.Ok? then Forward(d) else
    var v := ParseUnsigned(d.value, max);
    if v.None? || !(lo <= v.value <= hi) then Error else Ok(v.value, d.rest)
  }

  /** `year`: a `u16` greater than zero. */
  function Year(s: string): Res<nat> {
    Field(s, U16_MAX, 1, U16_MAX)
  }

  /** `month`: a `u8` in 1..12. */
  function Month(s: string): Res<nat> {
    Field(s, U8_MAX, 1, 12)
  }

  /** `day`: a `u8` in 1..31. */
  function Day(s: string): Res<nat> {
    Field(s, U8_MAX, 1, 31)
  }

  /** `date`: year, '-', month, '-', day. */
  function ParseDate(s: string): (r: Res<Date>)
    ensures !r.Failure?
    ensures r.Ok? ==> 1 <= r.value.year <= U16_MAX && 1 <= r.value.monthOfYear <= 12 && 1 <= r.value.dayOfMonth <= 31
    ensures r.Ok? ==> |r.rest| < |s|
  {
    var y := Year(s);
    if !y.Ok? then Forward(y) else
    var dash1 := Char('-', y.rest);
    if !dash1.Ok? then Forward(dash1) else
    var m := Month(dash1.rest);
    if !m.Ok? then Forward(m) else
    var dash2 := Char('-', m.rest);
    if !dash2.Ok? then Forward(dash2) else
    var d := Day(dash2.rest);
    if !d.Ok? then Forward(d) else
    Ok(Date(y.value, m.value, d.value), d.rest)
  }

  /** A maximal digit run `ds` followed by `rest` is read as a field exactly
    * when its value is within range. */
  lemma FieldOfDigits(s: string, ds: string, rest: string, max: nat, lo: nat, hi: nat)
    requires ds != [] && AllDigits(ds) && s == ds + rest
    requires rest == [] || !IsDigit(rest[0])
    ensures Field(s, max, lo, hi).Ok? <==> NatValue(ds) <= max && lo <= NatValue(ds) <= hi
    ensures Field(s, max, lo, hi).Ok? ==> Field(s, max, lo, hi) == Ok(NatValue(ds), rest)
  {
    Digit1OfRun(ds, rest);
    assert StripPlus(ds) == ds;
  }

  /** A date written as three digit runs separated by '-' is accepted exactly
    * when each field is in range, and then carries the numbers written. */
  lemma ParseDateOfText(y: string, m: string, d: string, rest: string)
    requires y != [] && AllDigits(y) && m != [] && AllDigits(m) && d != [] && AllDigits(d)
    requires rest == [] || !IsDigit(rest[0])
    ensures ParseDate(y + "-" + m + "-" + d + rest).Ok? <==>
              1 <= NatValue(y) <= U16_MAX && 1 <= NatValue(m) <= 12 && 1 <= NatValue(d) <= 31
    ensures ParseDate(y + "-" + m + "-" + d + rest).Ok? ==>
              ParseDate(y + "-" + m + "-" + d + rest) == Ok(Date(NatValue(y), NatValue(m), NatValue(d)), rest)
  {
    var dayText := d + rest;
    var afterMonth := "-" + dayText;
    var monthText := m + afterMonth;
    var afterYear := "-" + monthText;
    var s := y + afterYear;
    assert y + "-" + m + "-" + d + rest == s;
    FieldOfDigits(s, y, afterYear, U16_MAX, 1, U16_MAX);
    assert afterYear[1..] == monthText;
    FieldOfDigits(monthText, m, afterMonth, U8_MAX, 1, 12);
    assert afterMonth[1..] == dayText;
    FieldOfDigits(dayText, d, rest, U8_MAX, 1, 31);
  }

  /** Input that does not start with a digit, such as `hello`, is rejected
    * recoverably. */
  lemma ParseDateNeedsDigit(s: string)
    requires s == [] || !IsDigit(s[0])
    ensures ParseDate(s).Error?
  {
  }
}
