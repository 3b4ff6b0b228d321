/**
 * src/price.rs: the `price` directive, a date, the keyword `price` between
 * blanks, the commodity, blanks, its price as an amount, and an optional
 * trailing `;` comment.  The blanks around the keyword and after the
 * commodity are read by nom's streaming `space1`, which reports running out
 * of input as `Incomplete`; the model turns that into a failure.
 */
module Prices {
  import opened Nom
  import ParserDates
  import ExprAmount
  import Strings

  datatype Price = Price(date: ParserDates.Date, commodity: string, price: ExprAmount.Amount,
                         comment: Option<string>)

  /** `opt(preceded(space0, comment))`. */
  function OptionalComment(s: string): (r: (Option<string>, string))
    ensures |r.1| <= |s|
    ensures r.0.None? ==> r.1 == s
    ensures r.0.Some? <==> Strings.Comment(Space0(s)).Ok?
  {
    var c := Strings.Comment(Space0(s));
    if c.Ok? then (Some(c.value), c.rest) else (None, s)
  }

  /** `price`. */
  function Parse(s: string): (r: Res<Price>)
    ensures r.Ok? ==> ParserDates.ParseDate(s).Ok? && r.value.date == ParserDates.ParseDate(s).value
    ensures r.Ok? ==> r.value.commodity != [] && ExprAmount.AllUpper(r.value.commodity)
    ensures r.Ok? ==> |r.rest| < |s|
  {
    var date := ParserDates.ParseDate(s);
    if !date.Ok? then Forward(date) else
    var gap := Space1Streaming(date.rest);
    if !gap.Ok? then Forward(gap) else
    var keyword := Tag("price", gap.rest);
    if !keyword.Ok? then Forward(keyword) else
    var gap2 := Space1Streaming(keyword.rest);
    if !gap2.Ok? then Forward(gap2) else
    var commodity := ExprAmount.Currency(gap2.rest);
    if !commodity.Ok? then Forward(commodity) else
    var gap3 := Space1Streaming(commodity.rest);
    if !gap3.Ok? then Forward(gap3) else
    var amount := ExprAmount.ParseAmount(gap3.rest);
    if !amount.Ok? then Forward(amount) else
    var (comment, rest) := OptionalComment(amount.rest);
    Ok(Price(date.value, commodity.value, amount.value, comment), rest)
  }

  // ------------------------------------------------------------- properties

  /** A date, `price` between blanks, a commodity code, blanks and an amount
    * read back as those values; what follows the amount is left to the
    * optional comment. */
  lemma ParseOf(s: string, d: ParserDates.Date, gap: string, gap2: string, code: string, gap3: string,
                t: string, a: ExprAmount.Amount, u: string)
    requires ParserDates.ParseDate(s) == Ok(d, gap + ("price" + (gap2 + (code + (gap3 + t)))))
    requires gap != [] && forall i :: 0 <= i < |gap| ==> IsBlank(gap[i])
    requires gap2 != [] && forall i :: 0 <= i < |gap2| ==> IsBlank(gap2[i])
    requires code != [] && ExprAmount.AllUpper(code)
    requires gap3 != [] && forall i :: 0 <= i < |gap3| ==> IsBlank(gap3[i])
    requires t != [] && !IsBlank(t[0])
    requires ExprAmount.ParseAmount(t) == Ok(a, u)
    ensures Parse(s).Ok? && Parse(s).value == Price(d, code, a, OptionalComment(u).0)
    ensures Parse(s).rest == OptionalComment(u).1
  {
    Stages(gap, gap2, code, gap3, t);
    var v := gap2 + (code + (gap3 + t));
    ParseSteps(s, d, gap + ("price" + v), "price" + v, v, code + (gap3 + t), code, gap3 + t, t, a, u);
  }

  lemma Stages(gap: string, gap2: string, code: string, gap3: string, t: string)
    requires gap != [] && forall i :: 0 <= i < |gap| ==> IsBlank(gap[i])
    requires gap2 != [] && forall i :: 0 <= i < |gap2| ==> IsBlank(gap2[i])
    requires code != [] && ExprAmount.AllUpper(code)
    requires gap3 != [] && forall i :: 0 <= i < |gap3| ==> IsBlank(gap3[i])
    requires t != [] && !IsBlank(t[0])
    ensures var v := gap2 + (code + (gap3 + t));
            Space1Streaming(gap + ("price" + v)).Ok? && Space1Streaming(gap + ("price" + v)).rest == "price" + v &&
            Tag("price", "price" + v).Ok? && Tag("price", "price" + v).rest == v &&
            Space1Streaming(v).Ok? && Space1Streaming(v).rest == code + (gap3 + t) &&
            ExprAmount.Currency(code + (gap3 + t)) == Ok(code, gap3 + t) &&
            Space1Streaming(gap3 + t).Ok? && Space1Streaming(gap3 + t).rest == t
  {
    KeywordBetweenBlanks(gap, gap2, code + (gap3 + t));
    CodeThenBlanks(code, gap3, t);
  }

  lemma ParseSteps(s: string, d: ParserDates.Date, u1: string, u2: string, u3: string, u4: string,
                   code: string, u5: string, t: string, a: ExprAmount.Amount, u: string)
    requires ParserDates.ParseDate(s) == Ok(d, u1)
    requires Space1Streaming(u1).Ok? && Space1Streaming(u1).rest == u2
    requires Tag("price", u2).Ok? && Tag("price", u2).rest == u3
    requires Space1Streaming(u3).Ok? && Space1Streaming(u3).rest == u4
    requires ExprAmount.Currency(u4) == Ok(code, u5)
    requires Space1Streaming(u5).Ok? && Space1Streaming(u5).rest == t
    requires ExprAmount.ParseAmount(t) == Ok(a, u)
    ensures Parse(s).Ok? && Parse(s).value == Price(d, code, a, OptionalComment(u).0)
    ensures Parse(s).rest == OptionalComment(u).1
  {
  }

  lemma KeywordBetweenBlanks(gap: string, gap2: string, t: string)
    requires gap != [] && forall i :: 0 <= i < |gap| ==> IsBlank(gap[i])
    requires gap2 != [] && forall i :: 0 <= i < |gap2| ==> IsBlank(gap2[i])
    requires t != [] && !IsBlank(t[0])
    ensures Space1Streaming(gap + ("price" + (gap2 + t))) == Ok(gap, "price" + (gap2 + t))
    ensures Tag("price", "price" + (gap2 + t)) == Ok("price", gap2 + t)
    ensures Space1Streaming(gap2 + t) == Ok(gap2, t)
  {
    Space1OfBlanks(gap, "price" + (gap2 + t));
    Space1OfBlanks(gap2, t);
    assert ("price" + (gap2 + t))[..5] == "price";
  }

  lemma CodeThenBlanks(code: string, gap: string, t: string)
    requires code != [] && ExprAmount.AllUpper(code)
    requires gap != [] && forall i :: 0 <= i < |gap| ==> IsBlank(gap[i])
    requires t != [] && !IsBlank(t[0])
    ensures ExprAmount.Currency(code + (gap + t)) == Ok(code, gap + t)
    ensures Space1Streaming(gap + t) == Ok(gap, t)
  {
    assert (gap + t)[0] == gap[0];
    TakeWhile1OfRun(IsAsciiUpper, code, gap + t);
    Space1OfBlanks(gap, t);
  }

  /** A `;` comment after the amount, any blanks before it, is kept trimmed. */
  lemma CommentOf(gap: string, k: nat, text: string, rest: string)
    requires forall i :: 0 <= i < |gap| ==> IsBlank(gap[i])
    requires k >= 1
    requires forall i :: 0 <= i < |text| ==> NotLineBreak(text[i])
    requires text == [] || text[0] != ';'
    requires rest == [] || LineEnding(rest).Ok?
    ensures OptionalComment(gap + (Strings.Semicolons(k) + text + rest)) == (Some(Trim(text)), rest)
  {
    Space0OfBlanks(gap, Strings.Semicolons(k) + text + rest);
    Strings.CommentOfLine(k, text, rest);
  }

  /** Without a `;` after the blanks there is no comment and nothing is read. */
  lemma NoComment(gap: string, t: string)
    requires forall i :: 0 <= i < |gap| ==> IsBlank(gap[i])
    requires t == [] || (!IsBlank(t[0]) && t[0] != ';')
    ensures OptionalComment(gap + t) == (None, gap + t)
  {
    Space0OfBlanks(gap, t);
  }

  /** The commodity must be followed by a blank: another character is a
    * recoverable error, the end of the input a failure. */
  lemma CommodityNeedsBlank(s: string, d: ParserDates.Date, gap: string, gap2: string, code: string, t: string)
    requires ParserDates.ParseDate(s) == Ok(d, gap + ("price" + (gap2 + (code + t))))
    requires gap != [] && forall i :: 0 <= i < |gap| ==> IsBlank(gap[i])
    requires gap2 != [] && forall i :: 0 <= i < |gap2| ==> IsBlank(gap2[i])
    requires code != [] && ExprAmount.AllUpper(code)
    requires t == [] || (!IsBlank(t[0]) && !IsAsciiUpper(t[0]))
    ensures t == [] ==> Parse(s).Failure?
    ensures t != [] ==> Parse(s).Error?
  {
    CodeAtEnd(gap, gap2, code, t);
  }

  lemma CodeAtEnd(gap: string, gap2: string, code: string, t: string)
    requires gap != [] && forall i :: 0 <= i < |gap| ==> IsBlank(gap[i])
    requires gap2 != [] && forall i :: 0 <= i < |gap2| ==> IsBlank(gap2[i])
    requires code != [] && ExprAmount.AllUpper(code)
    requires t == [] || (!IsBlank(t[0]) && !IsAsciiUpper(t[0]))
    ensures var v := gap2 + (code + t);
            Space1Streaming(gap + ("price" + v)).Ok? && Space1Streaming(gap + ("price" + v)).rest == "price" + v &&
            Tag("price", "price" + v).Ok? && Tag("price", "price" + v).rest == v &&
            Space1Streaming(v).Ok? && Space1Streaming(v).rest == code + t &&
            ExprAmount.Currency(code + t) == Ok(code, t) &&
            (t == [] ==> Space1Streaming(t).Failure?) && (t != [] ==> Space1Streaming(t).Error?)
  {
    KeywordBetweenBlanks(gap, gap2, code + t);
    TakeWhile1OfRun(IsAsciiUpper, code, t);
  }
}
