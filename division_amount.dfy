/**
 * src/parser/amount.rs: a prototype that reads `a / b` and yields the
 * quotient.  Its `value` scanner is textually the one of src/expression.rs,
 * and is taken from there.
 */
module DivisionAmount {
  import opened Nom
  import Decimals
  import RightExpression

  /** `operator`: only `/`. */
  function ParseOperator(s: string): (r: Res<char>)
    ensures !r.Failure?
    ensures r.Ok? <==> s != [] && s[0] == '/'
    ensures r.Ok? ==> r.value == '/' && r.rest == s[1..]
  {
    Char('/', s)
  }

  /** `operation`: a literal, blanks, `/`, blanks, a literal; the value is
    * the quotient of the two literals. */
  function Operation(s: string): (r: Res<real>)
    ensures !r.Failure?
    ensures r.Ok? ==> |r.rest| < |s|
  {
    var a := RightExpression.ParseValue(s);
    if !a.Ok? then Error else
    var op := ParseOperator(Space0(a.rest));
    if !op.Ok? then Error else
    var b := RightExpression.ParseValue(Space0(op.rest));
    if !b.Ok? then Error else Ok(Decimals.Div(a.value, b.value), b.rest)
  }

  /** `operation` assembled from its three readings. */
  lemma OperationOf(s: string, v: real, a: string, b: string, w: real, c: string)
    requires RightExpression.ParseValue(s) == Ok(v, a)
    requires ParseOperator(Space0(a)) == Ok('/', b)
    requires RightExpression.ParseValue(Space0(b)) == Ok(w, c)
    ensures Operation(s) == Ok(Decimals.Div(v, w), c)
  {
  }

  /** `n / m`, with any blanks around the `/`, is the quotient of the two. */
  lemma QuotientOf(n: nat, gap1: string, gap2: string, m: nat, rest: string)
    requires RightExpression.Blanks(gap1) && RightExpression.Blanks(gap2)
    requires RightExpression.EndsNumber(rest)
    ensures Operation(NatText(n) + (gap1 + ("/" + (gap2 + (NatText(m) + rest))))) ==
            Ok(Decimals.Div(n as real, m as real), rest)
  {
    var tail := gap2 + (NatText(m) + rest);
    DividendThenSlash(n, gap1, tail);
    DivisorOf(gap2, m, rest);
    OperationOf(NatText(n) + (gap1 + ("/" + tail)), n as real, gap1 + ("/" + tail), tail, m as real, rest);
  }

  lemma DividendThenSlash(n: nat, gap: string, tail: string)
    requires RightExpression.Blanks(gap)
    ensures var a := gap + ("/" + tail);
            RightExpression.ParseValue(NatText(n) + a) == Ok(n as real, a) &&
            ParseOperator(Space0(a)) == Ok('/', tail)
  {
    assert [RightExpression.OpChar(RightExpression.Divide)] == "/";
    RightExpression.OperatorAfterGap(RightExpression.Divide, gap, tail);
    RightExpression.ValueOfNat(n, gap + ("/" + tail));
  }

  lemma DivisorOf(gap: string, m: nat, rest: string)
    requires RightExpression.Blanks(gap)
    requires RightExpression.EndsNumber(rest)
    ensures RightExpression.ParseValue(Space0(gap + (NatText(m) + rest))) == Ok(m as real, rest)
  {
    var ds := NatText(m);
    assert (ds + rest)[0] == ds[0];
    Space0OfBlanks(gap, ds + rest);
    RightExpression.ValueOfNat(m, rest);
  }

  /** `3 / 2` is 1.5. */
  lemma ThreeHalves()
    ensures Operation(NatText(3) + (" " + ("/" + (" " + (NatText(2) + ""))))) == Ok(1.5, "")
  {
    QuotientOf(3, " ", " ", 2, "");
  }

  /** Any other operator between the literals is rejected. */
  lemma OtherOperatorRejected(n: nat, gap: string, c: char, after: string)
    requires RightExpression.Blanks(gap)
    requires c != '/' && !IsBlank(c) && !IsDigit(c) && c != '.'
    ensures Operation(NatText(n) + (gap + ([c] + after))).Error?
  {
    var b := [c] + after;
    Space0OfBlanks(gap, b);
    if gap != [] {
      assert (gap + b)[0] == gap[0];
    } else {
      assert gap + b == b;
    }
    RightExpression.ValueOfNat(n, gap + b);
  }
}
