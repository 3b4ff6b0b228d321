/**
 * src/open.rs: the `open` directive, a date, the keyword `open` between
 * blanks, and the account being opened.  The build with the `unstable`
 * feature also reads at most one currency the account is restricted to; in
 * the default build the list of currencies is always empty.
 */
module Opens {
  import opened Nom
  import ParserDates
  import Accounts
  import ExprAmount

  datatype Open = Open(date: ParserDates.Date, account: Accounts.Account, currencies: seq<string>)

  /** `open` of the default build. */
  function Parse(s: string): (r: Res<Open>)
    ensures !r.Failure?
    ensures r.Ok? ==> ParserDates.ParseDate(s).Ok? && r.value.date == ParserDates.ParseDate(s).value
    ensures r.Ok? ==> r.value.currencies == [] && |r.rest| < |s|
  {
    var date := ParserDates.ParseDate(s);
    if !date.Ok? then Forward(date) else
    var gap := Space1(date.rest);
    if !gap.Ok? then Forward(gap) else
    var keyword := Tag("open", gap.rest);
    if !keyword.Ok? then Forward(keyword) else
    var gap2 := Space1(keyword.rest);
    if !gap2.Ok? then Forward(gap2) else
    var account := Accounts.ParseAccount(gap2.rest);
    if !account.Ok? then Forward(account) else
    Ok(Open(date.value, account.value, []), account.rest)
  }

  /** `open` of the `unstable` build: the same, then optionally blanks and
    * one currency. */
  function ParseWithCurrency(s: string): (r: Res<Open>)
    ensures r.Ok? <==> Parse(s).Ok?
    ensures !r.Failure?
    ensures r.Ok? ==> r.value.date == Parse(s).value.date && r.value.account == Parse(s).value.account
    ensures r.Ok? ==> |r.value.currencies| <= 1 && (r.value.currencies == [] <==> r.rest == Parse(s).rest)
  {
    var open := Parse(s);
    if !open.Ok? then open else
    var gap := Space1(open.rest);
    var currency := if gap.Ok? then ExprAmount.Currency(gap.rest) else Error;
    if currency.Ok? then Ok(open.value.(currencies := [currency.value]), currency.rest) else open
  }

  // ------------------------------------------------------------- properties

  /** A date, `open` between blanks and an account read back as those values. */
  lemma ParseOf(s: string, d: ParserDates.Date, gap: string, gap2: string, t: string,
                a: Accounts.Account, rest: string)
    requires ParserDates.ParseDate(s) == Ok(d, gap + ("open" + (gap2 + t)))
    requires gap != [] && forall i :: 0 <= i < |gap| ==> IsBlank(gap[i])
    requires gap2 != [] && forall i :: 0 <= i < |gap2| ==> IsBlank(gap2[i])
    requires Accounts.ParseAccount(t) == Ok(a, rest)
    ensures Parse(s).Ok? && Parse(s).value == Open(d, a, []) && Parse(s).rest == rest
  {
    Stages(gap, gap2, t, a, rest);
    ParseSteps(s, d, gap + ("open" + (gap2 + t)), "open" + (gap2 + t), gap2 + t, t, a, rest);
  }

  lemma ParseSteps(s: string, d: ParserDates.Date, u: string, v: string, w: string, t: string,
                   a: Accounts.Account, rest: string)
    requires ParserDates.ParseDate(s) == Ok(d, u)
    requires Space1(u).Ok? && Space1(u).rest == v
    requires Tag("open", v).Ok? && Tag("open", v).rest == w
    requires Space1(w).Ok? && Space1(w).rest == t
    requires Accounts.ParseAccount(t) == Ok(a, rest)
    ensures Parse(s).Ok? && Parse(s).value == Open(d, a, []) && Parse(s).rest == rest
  {
  }

  lemma Stages(gap: string, gap2: string, t: string, a: Accounts.Account, rest: string)
    requires gap != [] && forall i :: 0 <= i < |gap| ==> IsBlank(gap[i])
    requires gap2 != [] && forall i :: 0 <= i < |gap2| ==> IsBlank(gap2[i])
    requires Accounts.ParseAccount(t) == Ok(a, rest)
    ensures var v := "open" + (gap2 + t);
            Space1(gap + v).Ok? && Space1(gap + v).rest == v &&
            Tag("open", v).Ok? && Tag("open", v).rest == gap2 + t &&
            Space1(gap2 + t).Ok? && Space1(gap2 + t).rest == t
  {
    Accounts.AccountStart(t);
    KeywordBetweenBlanks(gap, gap2, t);
  }

  lemma KeywordBetweenBlanks(gap: string, gap2: string, t: string)
    requires gap != [] && forall i :: 0 <= i < |gap| ==> IsBlank(gap[i])
    requires gap2 != [] && forall i :: 0 <= i < |gap2| ==> IsBlank(gap2[i])
    requires t == [] || !IsBlank(t[0])
    ensures Space1(gap + ("open" + (gap2 + t))) == Ok(gap, "open" + (gap2 + t))
    ensures Tag("open", "open" + (gap2 + t)) == Ok("open", gap2 + t)
    ensures Space1(gap2 + t) == Ok(gap2, t)
  {
    Space1OfBlanks(gap, "open" + (gap2 + t));
    Space1OfBlanks(gap2, t);
    assert ("open" + (gap2 + t))[..4] == "open";
  }

  /** Blanks are required on both sides of the keyword. */
  lemma KeywordNeedsBlanks(s: string, d: ParserDates.Date, gap: string, t: string)
    requires ParserDates.ParseDate(s) == Ok(d, gap + ("open" + t))
    requires forall i :: 0 <= i < |gap| ==> IsBlank(gap[i])
    requires gap == [] || t == [] || !IsBlank(t[0])
    ensures Parse(s).Error? && ParseWithCurrency(s).Error?
  {
    KeywordWithoutBlanks(gap, t);
  }

  lemma KeywordWithoutBlanks(gap: string, t: string)
    requires forall i :: 0 <= i < |gap| ==> IsBlank(gap[i])
    requires gap == [] || t == [] || !IsBlank(t[0])
    ensures var g := Space1(gap + ("open" + t));
            g.Error? || (Tag("open", g.rest).Ok? && Space1(Tag("open", g.rest).rest).Error?)
  {
    if gap != [] {
      Space1OfBlanks(gap, "open" + t);
      assert ("open" + t)[..4] == "open" && ("open" + t)[4..] == t;
    } else {
      assert (gap + ("open" + t))[0] == 'o';
    }
  }

  /** The `unstable` build reads a currency written after the account. */
  lemma CurrencyOf(s: string, o: Open, gap: string, code: string, rest: string)
    requires Parse(s).Ok? && Parse(s).value == o && Parse(s).rest == gap + (code + rest)
    requires gap != [] && forall i :: 0 <= i < |gap| ==> IsBlank(gap[i])
    requires code != [] && ExprAmount.AllUpper(code)
    requires rest == [] || !IsAsciiUpper(rest[0])
    ensures ParseWithCurrency(s).Ok? && ParseWithCurrency(s).value == Open(o.date, o.account, [code])
    ensures ParseWithCurrency(s).rest == rest
  {
    CurrencyAfterBlanks(gap, code, rest);
    CurrencyStep(s, gap, code + rest, code, rest);
  }

  lemma CurrencyStep(s: string, gap: string, u: string, code: string, rest: string)
    requires Parse(s).Ok? && Space1(Parse(s).rest) == Ok(gap, u) && ExprAmount.Currency(u) == Ok(code, rest)
    ensures ParseWithCurrency(s) == Ok(Parse(s).value.(currencies := [code]), rest)
  {
  }

  lemma CurrencyAfterBlanks(gap: string, code: string, rest: string)
    requires gap != [] && forall i :: 0 <= i < |gap| ==> IsBlank(gap[i])
    requires code != [] && ExprAmount.AllUpper(code)
    requires rest == [] || !IsAsciiUpper(rest[0])
    ensures Space1(gap + (code + rest)) == Ok(gap, code + rest)
    ensures ExprAmount.Currency(code + rest) == Ok(code, rest)
  {
    Space1OfBlanks(gap, code + rest);
    TakeWhile1OfRun(IsAsciiUpper, code, rest);
  }
}
