/**
 * src/amount.rs: an amount is a number, blanks and a currency; a price is a
 * currency, blanks and an amount.  The number is the longest run of digits,
 * `-` and `.`, handed to the decimal type's parser.
 */
module AmountParser {
  import opened Nom
  import Decimals
  import Currencies

  datatype Amount = Amount(value: real, currency: string)

  datatype Price = Price(currency: string, amount: Amount)

  /** Characters the number scan takes. */
  predicate IsNumberChar(c: char) { IsDigit(c) || c == '-' || c == '.' }

  /** `value`: the longest non-empty run of number characters, which must
    * parse as a decimal; a run that does not is a recoverable error. */
  function Value(s: string): (r: Res<real>)
    ensures !r.Failure?
    ensures r.Ok? ==> s != [] && IsNumberChar(s[0]) && |r.rest| < |s|
    ensures r.Ok? ==> r.rest == [] || !IsNumberChar(r.rest[0])
  {
    var run := TakeWhile1(IsNumberChar, s);
    if !run.Ok? then Error else
    var v := Decimals.FromStr(run.value);
    if v.None? then Error else Ok(v.value, run.rest)
  }

  /** `currency`: the currency code of src/currency.rs. */
  function Currency(s: string): (r: Res<string>)
    ensures !r.Failure?
    ensures r.Ok? ==> Currencies.IsCurrency(r.value) && s == r.value + r.rest
  {
    var c := Currencies.Parse(s);
    if c.Ok? then Currencies.ParseShape(s); c else c
  }

  /** `parse`: a number, at least one blank, a currency. */
  function Parse(s: string): (r: Res<Amount>)
    ensures !r.Failure?
    ensures r.Ok? ==> Currencies.IsCurrency(r.value.currency) && |r.rest| < |s|
    ensures r.Ok? ==> IsNumberChar(s[0])
  {
    var v := Value(s);
    if !v.Ok? then Error else
    var gap := Space1(v.rest);
    if !gap.Ok? then Error else
    var c := Currency(gap.rest);
    if !c.Ok? then Error else Ok(Amount(v.value, c.value), c.rest)
  }

  /** `price`: a currency, at least one blank, an amount. */
  function ParsePrice(s: string): (r: Res<Price>)
    ensures !r.Failure?
    ensures r.Ok? ==> Currencies.IsCurrency(r.value.currency) && |r.rest| < |s|
  {
    var c := Currency(s);
    if !c.Ok? then Error else
    var gap := Space1(c.rest);
    if !gap.Ok? then Error else
    var a := Parse(gap.rest);
    if !a.Ok? then Error else Ok(Price(c.value, a.value), a.rest)
  }

  predicate AllNumberChars(t: string) { forall i :: 0 <= i < |t| ==> IsNumberChar(t[i]) }

  predicate AllBlank(g: string) { forall i :: 0 <= i < |g| ==> IsBlank(g[i]) }

  /** A number run that the decimal parser accepts is read with that value. */
  lemma ValueOf(text: string, rest: string)
    requires text != [] && AllNumberChars(text)
    requires rest == [] || !IsNumberChar(rest[0])
    requires Decimals.FromStr(text).Some?
    ensures Value(text + rest) == Ok(Decimals.FromStr(text).value, rest)
  {
    TakeWhile1OfRun(IsNumberChar, text, rest);
  }

  /** The whole run must be a decimal: `10..2` is not cut back to `10.`. */
  lemma ValueRejectsTwoDots(intPart: string, middle: string, more: string, rest: string)
    requires AllDigits(intPart) && AllDigits(middle) && AllNumberChars(more)
    requires rest == [] || !IsNumberChar(rest[0])
    ensures Value(intPart + "." + middle + "." + more + rest).Error?
  {
    var text := intPart + "." + middle + "." + more;
    assert AllNumberChars(text) by {
      forall i | 0 <= i < |text| ensures IsNumberChar(text[i]) {
        if i < |intPart| { assert text[i] == intPart[i]; }
        else if i == |intPart| { assert text[i] == '.'; }
        else if i < |intPart| + 1 + |middle| { assert text[i] == middle[i - |intPart| - 1]; }
        else if i == |intPart| + 1 + |middle| { assert text[i] == '.'; }
        else { assert text[i] == more[i - |intPart| - 2 - |middle|]; }
      }
    }
    TakeWhile1OfRun(IsNumberChar, text, rest);
    Decimals.FromStrTwoDots(intPart, middle, more);
  }

  /** A number, blanks and a currency code read back as that amount. */
  lemma ParseOf(text: string, gap: string, code: string, rest: string)
    requires text != [] && AllNumberChars(text) && Decimals.FromStr(text).Some?
    requires gap != [] && AllBlank(gap)
    requires Currencies.IsCurrency(code)
    requires rest == [] || !Currencies.IsTailChar(rest[0])
    ensures Parse(text + (gap + (code + rest))) == Ok(Amount(Decimals.FromStr(text).value, code), rest)
  {
    ValueOf(text, gap + (code + rest));
    Space0OfBlanks(gap, code + rest);
    Currencies.ParseCurrency(code, rest);
  }

  /** Number and currency must be separated: `10CHF` is rejected. */
  lemma ParseNeedsBlank(s: string)
    requires Value(s).Ok?
    requires Value(s).rest == [] || !IsBlank(Value(s).rest[0])
    ensures Parse(s).Error?
  {
  }

  /** A code, blanks and an amount read back as that price. */
  lemma ParsePriceOf(code: string, gap: string, t: string)
    requires Currencies.IsCurrency(code)
    requires gap != [] && AllBlank(gap)
    requires Parse(t).Ok?
    ensures ParsePrice(code + (gap + t)) == Ok(Price(code, Parse(t).value), Parse(t).rest)
  {
    CodeThenBlanks(code, gap, t);
  }

  lemma CodeThenBlanks(code: string, gap: string, t: string)
    requires Currencies.IsCurrency(code)
    requires gap != [] && AllBlank(gap)
    requires t != [] && IsNumberChar(t[0])
    ensures Currency(code + (gap + t)) == Ok(code, gap + t)
    ensures Space1(gap + t) == Ok(gap, t)
  {
    CodeThenBlank(code, gap + t);
    Space0OfBlanks(gap, t);
  }

  lemma CodeThenBlank(code: string, after: string)
    requires Currencies.IsCurrency(code)
    requires after != [] && IsBlank(after[0])
    ensures Currency(code + after) == Ok(code, after)
  {
    Currencies.ParseCurrency(code, after);
  }
}
