/**
 * src/assertion.rs: the `balance` directive, which asserts the balance of an
 * account: a date, the keyword `balance`, the account and the expected
 * amount, separated by blanks.  The blanks are read by nom's streaming
 * `space1`, so running out of input where blanks are due is a failure.
 */
module Assertions {
  import opened Nom
  import ParserDates
  import Accounts
  import ExprAmount
  import AmountExpression

  datatype Assertion = Assertion(date: ParserDates.Date, account: Accounts.Account, amount: ExprAmount.Amount)

  /** `assertion`. */
  function Parse(s: string): (r: Res<Assertion>)
    ensures r.Ok? ==> ParserDates.ParseDate(s).Ok? && r.value.date == ParserDates.ParseDate(s).value
    ensures r.Ok? ==> |r.rest| < |s|
  {
    var date := ParserDates.ParseDate(s);
    if !date.Ok? then Forward(date) else AfterDate(date.value, date.rest)
  }

  /** What follows the date: blanks, `balance`, an account and an amount. */
  function AfterDate(d: ParserDates.Date, u: string): (r: Res<Assertion>)
    ensures r.Ok? ==> r.value.date == d && |r.rest| < |u|
  {
    var gap := Space1Streaming(u);
    if !gap.Ok? then Forward(gap) else
    var keyword := Tag("balance", gap.rest);
    if !keyword.Ok? then Forward(keyword) else
    var gap2 := Space1Streaming(keyword.rest);
    if !gap2.Ok? then Forward(gap2) else
    Balance(d, gap2.rest)
  }

  /** The account and the amount of a balance assertion. */
  function Balance(d: ParserDates.Date, t: string): (r: Res<Assertion>)
    ensures r.Ok? ==> r.value.date == d && |r.rest| < |t|
  {
    var account := Accounts.ParseAccount(t);
    if !account.Ok? then Forward(account) else
    var gap3 := Space1Streaming(account.rest);
    if !gap3.Ok? then Forward(gap3) else
    var amount := ExprAmount.ParseAmount(gap3.rest);
    if !amount.Ok? then Forward(amount) else
    Ok(Assertion(d, account.value, amount.value), amount.rest)
  }

  // ------------------------------------------------------------- properties

  /** A date, `balance`, an account and an amount separated by blanks read
    * back as those values; an amount that ends the input leaves nothing. */
  lemma ParseOf(s: string, d: ParserDates.Date, gap: string, gap2: string, t: string,
                a: Accounts.Account, gap3: string, w: string, amount: ExprAmount.Amount, rest: string)
    requires ParserDates.ParseDate(s) == Ok(d, gap + ("balance" + (gap2 + t)))
    requires gap != [] && forall i :: 0 <= i < |gap| ==> IsBlank(gap[i])
    requires gap2 != [] && forall i :: 0 <= i < |gap2| ==> IsBlank(gap2[i])
    requires Accounts.ParseAccount(t) == Ok(a, gap3 + w)
    requires gap3 != [] && forall i :: 0 <= i < |gap3| ==> IsBlank(gap3[i])
    requires ExprAmount.ParseAmount(w) == Ok(amount, rest)
    ensures Parse(s).Ok? && Parse(s).value == Assertion(d, a, amount) && Parse(s).rest == rest
    ensures rest == [] ==> AllConsuming(Parse(s)).Ok?
  {
    Stages(gap, gap2, t, gap3, w);
    ParseSteps(s, d, gap + ("balance" + (gap2 + t)), "balance" + (gap2 + t), gap2 + t, t, a, gap3 + w,
               w, amount, rest);
  }

  lemma Stages(gap: string, gap2: string, t: string, gap3: string, w: string)
    requires gap != [] && forall i :: 0 <= i < |gap| ==> IsBlank(gap[i])
    requires gap2 != [] && forall i :: 0 <= i < |gap2| ==> IsBlank(gap2[i])
    requires Accounts.ParseAccount(t).Ok?
    requires gap3 != [] && forall i :: 0 <= i < |gap3| ==> IsBlank(gap3[i])
    requires ExprAmount.ParseAmount(w).Ok?
    ensures var v := "balance" + (gap2 + t);
            Space1Streaming(gap + v).Ok? && Space1Streaming(gap + v).rest == v &&
            Tag("balance", v).Ok? && Tag("balance", v).rest == gap2 + t &&
            Space1Streaming(gap2 + t).Ok? && Space1Streaming(gap2 + t).rest == t &&
            Space1Streaming(gap3 + w).Ok? && Space1Streaming(gap3 + w).rest == w
  {
    AccountFirst(t);
    KeywordBetweenBlanks(gap, gap2, t);
    AmountAfterBlanks(gap3, w);
  }

  lemma AccountFirst(t: string)
    requires Accounts.ParseAccount(t).Ok?
    ensures t != [] && !IsBlank(t[0])
  {
    Accounts.AccountStart(t);
  }

  lemma AmountAfterBlanks(gap: string, w: string)
    requires gap != [] && forall i :: 0 <= i < |gap| ==> IsBlank(gap[i])
    requires ExprAmount.ParseAmount(w).Ok?
    ensures Space1Streaming(gap + w) == Ok(gap, w)
  {
    assert w != [] && !IsBlank(w[0]) by {
      if w == [] || IsBlank(w[0]) {
        assert ExprAmount.ParseAmount(w).Error? by {
          AmountStart(w);
        }
      }
    }
    Space1OfBlanks(gap, w);
  }

  /** An amount starts with its expression, which starts with neither a blank
    * nor the end of the input. */
  lemma AmountStart(w: string)
    requires w == [] || IsBlank(w[0])
    ensures ExprAmount.ParseAmount(w).Error?
  {
    AmountExpression.NotAnExpression(w);
  }

  lemma ParseSteps(s: string, d: ParserDates.Date, u1: string, u2: string, u3: string, t: string,
                   a: Accounts.Account, u4: string, w: string, amount: ExprAmount.Amount, rest: string)
    requires ParserDates.ParseDate(s) == Ok(d, u1)
    requires Space1Streaming(u1).Ok? && Space1Streaming(u1).rest == u2
    requires Tag("balance", u2).Ok? && Tag("balance", u2).rest == u3
    requires Space1Streaming(u3).Ok? && Space1Streaming(u3).rest == t
    requires Accounts.ParseAccount(t) == Ok(a, u4)
    requires Space1Streaming(u4).Ok? && Space1Streaming(u4).rest == w
    requires ExprAmount.ParseAmount(w) == Ok(amount, rest)
    ensures Parse(s).Ok? && Parse(s).value == Assertion(d, a, amount) && Parse(s).rest == rest
  {
  }

  lemma KeywordBetweenBlanks(gap: string, gap2: string, t: string)
    requires gap != [] && forall i :: 0 <= i < |gap| ==> IsBlank(gap[i])
    requires gap2 != [] && forall i :: 0 <= i < |gap2| ==> IsBlank(gap2[i])
    requires t != [] && !IsBlank(t[0])
    ensures Space1Streaming(gap + ("balance" + (gap2 + t))) == Ok(gap, "balance" + (gap2 + t))
    ensures Tag("balance", "balance" + (gap2 + t)) == Ok("balance", gap2 + t)
    ensures Space1Streaming(gap2 + t) == Ok(gap2, t)
  {
    Space1OfBlanks(gap, "balance" + (gap2 + t));
    Space1OfBlanks(gap2, t);
    assert ("balance" + (gap2 + t))[..7] == "balance";
  }

  /** `balance` with no account after it is rejected: at the end of the input
    * it is a failure. */
  lemma MissingAccount(s: string, d: ParserDates.Date, gap: string)
    requires ParserDates.ParseDate(s) == Ok(d, gap + "balance")
    requires gap != [] && forall i :: 0 <= i < |gap| ==> IsBlank(gap[i])
    ensures Parse(s).Failure?
  {
    KeywordAtEnd(gap);
  }

  lemma KeywordAtEnd(gap: string)
    requires gap != [] && forall i :: 0 <= i < |gap| ==> IsBlank(gap[i])
    ensures Space1Streaming(gap + "balance").Ok? && Space1Streaming(gap + "balance").rest == "balance"
    ensures Tag("balance", "balance") == Ok("balance", [])
  {
    Space1OfBlanks(gap, "balance");
  }

  /** An account with no amount after it is rejected: at the end of the input
    * it is a failure, before another character an error. */
  lemma MissingAmount(s: string, d: ParserDates.Date, gap: string, gap2: string, t: string,
                      a: Accounts.Account, gap3: string, w: string)
    requires ParserDates.ParseDate(s) == Ok(d, gap + ("balance" + (gap2 + t)))
    requires gap != [] && forall i :: 0 <= i < |gap| ==> IsBlank(gap[i])
    requires gap2 != [] && forall i :: 0 <= i < |gap2| ==> IsBlank(gap2[i])
    requires Accounts.ParseAccount(t) == Ok(a, gap3 + w)
    requires forall i :: 0 <= i < |gap3| ==> IsBlank(gap3[i])
    requires w == [] || (!IsBlank(w[0]) && ExprAmount.ParseAmount(w).Error?)
    ensures w == [] ==> Parse(s).Failure?
    ensures w != [] ==> Parse(s).Error?
  {
    AccountFirst(t);
    KeywordBetweenBlanks(gap, gap2, t);
    NoAmount(gap3, w);
  }

  lemma NoAmount(gap: string, w: string)
    requires forall i :: 0 <= i < |gap| ==> IsBlank(gap[i])
    requires w == [] || (!IsBlank(w[0]) && ExprAmount.ParseAmount(w).Error?)
    ensures w == [] ==> Space1Streaming(gap + w).Failure?
    ensures w != [] ==> Space1Streaming(gap + w).Error? ||
                        (Space1Streaming(gap + w).Ok? && Space1Streaming(gap + w).rest == w)
  {
    if gap != [] {
      Space1OfBlanks(gap, w);
    } else if w == [] {
      assert gap + w == [];
    }
  }
}
