/**
 * src/date.rs: a date written `YYYY-MM-DD` (the extended calendar date
 * format of ISO 8601:2004, section 4.1.2.2), with range checks on month and
 * day but no check against the calendar.
 */
module Dates {
  import opened Nom

  /** Year fits a `u16`, month and day a `u8`. */
  datatype Date = Date(year: nat, month: nat, day: nat)

  /** `year`: four characters read as a `u16`. */
  function Year(s: string): (r: Res<nat>)
    ensures !r.Failure?
    ensures r.Ok? ==> |r.rest| < |s|
  {
    var t := Take(4, s);
    if !t.Ok? then Forward(t) else
    var y := ParseUnsigned(t.value, U16_MAX);
    if y.None? then Error else Ok(y.value, t.rest)
  }

  /** `month`: two characters read as a `u8`, which must lie in 1..12. */
  function Month(s: string): (r: Res<nat>)
    ensures !r.Failure?
    ensures r.Ok? ==> 1 <= r.value <= 12
    ensures r.Ok? ==> |r.rest| < |s|
  {
    var t := Take(2, s);
    if !t.Ok? then Forward(t) else
    var m := ParseUnsigned(t.value, U8_MAX);
    if m.None? || !(0 < m.value < 13) then Error else Ok(m.value, t.rest)
  }

  /** `day`: two characters read as a `u8`, which must lie in 1..31. */
  function Day(s: string): (r: Res<nat>)
    ensures !r.Failure?
    ensures r.Ok? ==> 1 <= r.value <= 31
    ensures r.Ok? ==> |r.rest| < |s|
  {
    var t := Take(2, s);
    if !t.Ok? then Forward(t) else
    var d := ParseUnsigned(t.value, U8_MAX);
    if d.None? || !(0 < d.value < 32) then Error else Ok(d.value, t.rest)
  }

  function DoParse(s: string): (r: Res<Date>)
    ensures !r.Failure?
    ensures r.Ok? ==> |r.rest| < |s|
  {
    var y := Year(s);
    if !y.Ok? then Forward(y) else
    var dash1 := Char('-', y.rest);
    if !dash1.Ok? then Forward(dash1) else
    var m := Month(dash1.rest);
    if !m.Ok? then Forward(m) else
    var dash2 := Char('-', m.rest);
    if !dash2.Ok? then Forward(dash2) else
    var d := Day(dash2.rest);
    if !d.Ok? then Forward(d) else
    Ok(Date(y.value, m.value, d.value), d.rest)
  }

  /** `parse`: input that does not look like digits-dash-digits-dash-digits is
    * rejected recoverably; once it does, any mismatch is a committed failure. */
  function Parse(s: string): (r: Res<Date>)
    ensures r.Error? <==> !DateLike(s).Ok?
    ensures r.Ok? ==> |r.rest| < |s|
  {
    if !DateLike(s).Ok? then Error else Cut(DoParse(s))
  }

  /** Four digits, '-', two digits, '-', two digits, month 1..12, day 1..31. */
  predicate IsIsoDate(s: string) {
    |s| >= 10 && AllDigits(s[..4]) && s[4] == '-' && AllDigits(s[5..7]) && s[7] == '-' &&
    AllDigits(s[8..10]) && 1 <= NatValue(s[5..7]) <= 12 && 1 <= NatValue(s[8..10]) <= 31
  }

  function IsoDateValue(s: string): Date
    requires IsIsoDate(s)
  {
    Date(NatValue(s[..4]), NatValue(s[5..7]), NatValue(s[8..10]))
  }

  lemma DateLikeAfterYear(s: string)
    requires |s| > 4 && AllDigits(s[..4]) && s[4] == '-'
    ensures DateLike(s).Ok? ==> |s| > 5 && IsDigit(s[5])
  {
    SpanOfUnique(IsDigit, s, 4);
    assert |s| > 5 ==> s[5..][0] == s[5];
  }

  lemma DateLikeAfterMonth(s: string)
    requires |s| > 7 && AllDigits(s[..4]) && s[4] == '-' && AllDigits(s[5..7]) && s[7] == '-'
    ensures DateLike(s).Ok? <==> |s| > 8 && IsDigit(s[8])
  {
    SpanOfUnique(IsDigit, s, 4);
    var t := s[5..];
    SpanOfUnique(IsDigit, t, 2);
    assert t[3..] == s[8..];
  }

  /** A fixed-width field that starts with a digit parses exactly when it is
    * all digits, and then as the number those digits denote. */
  lemma DigitsField(s: string, n: nat, max: nat)
    requires 1 <= n <= |s| && IsDigit(s[0]) && Pow10(n) <= max + 1
    ensures ParseUnsigned(s[..n], max).Some? <==> AllDigits(s[..n])
    ensures AllDigits(s[..n]) ==> ParseUnsigned(s[..n], max) == Some(NatValue(s[..n]))
  {
    assert s[..n][0] == s[0];
    assert StripPlus(s[..n]) == s[..n];
    if AllDigits(s[..n]) {
      NatValueBound(s[..n]);
    }
  }

  lemma YearField(s: string)
    requires |s| >= 4 && IsDigit(s[0])
    ensures Year(s).Ok? <==> AllDigits(s[..4])
    ensures Year(s).Ok? ==> Year(s) == Ok(NatValue(s[..4]), s[4..])
  {
    assert Pow10(4) == 10000;
    DigitsField(s, 4, U16_MAX);
  }

  lemma MonthField(s: string)
    requires |s| >= 2 && IsDigit(s[0])
    ensures Month(s).Ok? <==> AllDigits(s[..2]) && 1 <= NatValue(s[..2]) <= 12
    ensures Month(s).Ok? ==> Month(s) == Ok(NatValue(s[..2]), s[2..])
  {
    assert Pow10(2) == 100;
    DigitsField(s, 2, U8_MAX);
  }

  lemma DayField(s: string)
    requires |s| >= 2 && IsDigit(s[0])
    ensures Day(s).Ok? <==> AllDigits(s[..2]) && 1 <= NatValue(s[..2]) <= 31
    ensures Day(s).Ok? ==> Day(s) == Ok(NatValue(s[..2]), s[2..])
  {
    assert Pow10(2) == 100;
    DigitsField(s, 2, U8_MAX);
  }

  lemma DoParseOfIsoDate(s: string)
    requires IsIsoDate(s)
    ensures DoParse(s) == Ok(IsoDateValue(s), s[10..])
  {
    YearField(s);
    var m := s[5..];
    assert m[..2] == s[5..7] && m[2..] == s[7..];
    MonthField(m);
    var d := s[8..];
    assert d[..2] == s[8..10] && d[2..] == s[10..];
    DayField(d);
  }

  /** What a successful `do_parse` has read, field by field. */
  lemma DoParseSteps(s: string)
    requires DoParse(s).Ok?
    ensures |s| >= 10 && Year(s).Ok? && s[4] == '-' && Month(s[5..]).Ok? && s[7] == '-' && Day(s[8..]).Ok?
  {
    var y := Year(s);
    assert y.rest == s[4..];
    var m := Month(s[5..]);
    assert m.rest == s[7..];
  }

  lemma MonthDigits(s: string)
    requires |s| >= 10 && IsDigit(s[5]) && Month(s[5..]).Ok?
    ensures AllDigits(s[5..7]) && 1 <= NatValue(s[5..7]) <= 12
  {
    var m := s[5..];
    MonthField(m);
    assert m[..2] == s[5..7];
  }

  lemma DayDigits(s: string)
    requires |s| >= 10 && IsDigit(s[8]) && Day(s[8..]).Ok?
    ensures AllDigits(s[8..10]) && 1 <= NatValue(s[8..10]) <= 31
  {
    var d := s[8..];
    DayField(d);
    assert d[..2] == s[8..10];
  }

  lemma IsoDateShape(s: string)
    requires DateLike(s).Ok? && DoParse(s).Ok?
    ensures IsIsoDate(s)
  {
    DoParseSteps(s);
    YearField(s);
    DateLikeAfterYear(s);
    MonthDigits(s);
    DateLikeAfterMonth(s);
    DayDigits(s);
  }

  /** `parse` accepts exactly the well-formed dates, with the parsed numbers as
    * fields; it fails recoverably exactly when the date shape is missing. */
  lemma ParseSpec(s: string)
    ensures Parse(s).Ok? <==> IsIsoDate(s)
    ensures IsIsoDate(s) ==> Parse(s) == Ok(IsoDateValue(s), s[10..])
    ensures Parse(s).Error? <==> !DateLike(s).Ok?
  {
    if IsIsoDate(s) {
      DateLikeAfterMonth(s);
      DoParseOfIsoDate(s);
    } else if DateLike(s).Ok? && DoParse(s).Ok? {
      IsoDateShape(s);
    }
  }
}
