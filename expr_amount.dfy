/**
 * src/amount/mod.rs: an amount pairs an unevaluated arithmetic expression
 * with a currency made only of ASCII uppercase letters.
 */
module ExprAmount {
  import opened Nom
  import AmountExpression
  import Decimals

  datatype Amount = Amount(expression: AmountExpression.Expression, currency: string)

  /** `Amount::value`: the stored expression, evaluated.  What that value is
    * for an amount read from text is stated by `ValueOfLiteral` and
    * `ValueOfPrinted`. */
  function Value(a: Amount): real
  {
    AmountExpression.Evaluate(a.expression)
  }

  predicate AllUpper(c: string) { forall i :: 0 <= i < |c| ==> IsAsciiUpper(c[i]) }

  /** `currency`: a non-empty run of ASCII uppercase letters. */
  function Currency(s: string): (r: Res<string>)
    ensures r.Ok? <==> s != [] && IsAsciiUpper(s[0])
    ensures r.Ok? ==> r.value != [] && AllUpper(r.value) && s == r.value + r.rest
    ensures r.Ok? ==> r.rest == [] || !IsAsciiUpper(r.rest[0])
    ensures !r.Failure?
  {
    TakeWhile1(IsAsciiUpper, s)
  }

  /** `amount`: an expression, at least one blank, a currency; the expression
    * is kept as parsed. */
  function ParseAmount(s: string): (r: Res<Amount>)
    ensures !r.Failure?
    ensures r.Ok? ==> r.value.currency != [] && AllUpper(r.value.currency) && |r.rest| < |s|
  {
    var e := AmountExpression.Parse(s);
    if !e.Ok? then Error else
    var gap := Space1(e.rest);
    if !gap.Ok? then Error else
    var c := Currency(gap.rest);
    if !c.Ok? then Error else Ok(Amount(e.value, c.value), c.rest)
  }

  /** Blanks and an uppercase code end an expression. */
  lemma CodeStops(gap: string, code: string, rest: string)
    requires gap != [] && AmountExpression.Blanks(gap)
    requires code != [] && AllUpper(code)
    ensures AmountExpression.Stops(gap + (code + rest))
  {
    Space0OfBlanks(gap, code + rest);
  }

  /** An expression, blanks and a currency code read back as an amount that
    * holds the expression itself, not its value. */
  lemma ParseAmountOf(t: AmountExpression.Term, opGap: string, gap: string, code: string, rest: string)
    requires AmountExpression.Blanks(opGap)
    requires gap != [] && AmountExpression.Blanks(gap)
    requires code != [] && AllUpper(code)
    requires rest == [] || !IsAsciiUpper(rest[0])
    ensures ParseAmount(AmountExpression.PrintThen(t, opGap, gap + (code + rest))) ==
            Ok(Amount(AmountExpression.ToExpression(t), code), rest)
  {
    CodeStops(gap, code, rest);
    AmountExpression.ParsePrint(t, opGap, gap + (code + rest));
    Space0OfBlanks(gap, code + rest);
    TakeWhile1OfRun(IsAsciiUpper, code, rest);
    AmountStep(AmountExpression.PrintThen(t, opGap, gap + (code + rest)), gap + (code + rest), code + rest);
  }

  /** `value()` of an amount read from a literal and a currency is the number
    * the literal denotes: a '+' is dropped, a '-' negates, and the fraction
    * counts. */
  lemma ValueOfLiteral(sign: string, intPart: string, dot: bool, fracPart: string,
                       gap: string, code: string, rest: string)
    requires sign == "" || sign == "-" || sign == "+"
    requires AllDigits(intPart) && AllDigits(fracPart)
    requires intPart != [] || (dot && fracPart != [])
    requires !dot ==> fracPart == []
    requires gap != [] && AmountExpression.Blanks(gap)
    requires code != [] && AllUpper(code)
    requires rest == [] || !IsAsciiUpper(rest[0])
    ensures var r := ParseAmount(sign + Decimals.UnsignedText(intPart, dot, fracPart) + (gap + (code + rest)));
            r.Ok? && r.rest == rest && r.value.currency == code &&
            Value(r.value) == Decimals.LiteralValue(sign == "-", intPart, dot, fracPart)
  {
    var stop := gap + (code + rest);
    var s := sign + Decimals.UnsignedText(intPart, dot, fracPart) + stop;
    CodeStops(gap, code, rest);
    AmountExpression.ParseLiteral(sign, intPart, dot, fracPart, stop);
    Space1OfBlanks(gap, code + rest);
    TakeWhile1OfRun(IsAsciiUpper, code, rest);
    AmountStep(s, stop, code + rest);
  }

  /** `value()` of an amount read from any printed expression is the
    * arithmetic value of that expression, whatever its nesting. */
  lemma ValueOfPrinted(t: AmountExpression.Term, opGap: string, gap: string, code: string, rest: string)
    requires AmountExpression.Blanks(opGap)
    requires gap != [] && AmountExpression.Blanks(gap)
    requires code != [] && AllUpper(code)
    requires rest == [] || !IsAsciiUpper(rest[0])
    ensures var r := ParseAmount(AmountExpression.PrintThen(t, opGap, gap + (code + rest)));
            r.Ok? && r.rest == rest && r.value.currency == code && Value(r.value) == AmountExpression.TermValue(t)
  {
    ParseAmountOf(t, opGap, gap, code, rest);
    AmountExpression.EvaluateTerm(t);
  }

  /** The three stages of `amount`, each read as given. */
  lemma AmountStep(s: string, v: string, u: string)
    requires AmountExpression.Parse(s).Ok? && AmountExpression.Parse(s).rest == v
    requires Space1(v).Ok? && Space1(v).rest == u && Currency(u).Ok?
    ensures ParseAmount(s) == Ok(Amount(AmountExpression.Parse(s).value, Currency(u).value), Currency(u).rest)
  {
  }

  /** A currency in lowercase, as in `10 chf`, is rejected. */
  lemma LowercaseCurrencyRejected(s: string)
    requires AmountExpression.Parse(s).Ok?
    requires Space1(AmountExpression.Parse(s).rest).Ok?
    requires var after := Space1(AmountExpression.Parse(s).rest).rest;
             after == [] || IsAsciiLower(after[0])
    ensures ParseAmount(s).Error?
  {
  }
}
