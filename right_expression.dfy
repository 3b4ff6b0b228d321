/**
 * src/expression.rs: an earlier expression grammar.  An operation is one
 * literal, an operator and a whole expression, so chains nest to the right
 * and all four operators have the same precedence.
 */
module RightExpression {
  import opened Nom
  import Decimals

  datatype Operator = Divide | Multiply | Add | Minus

  datatype Expression = Value(value: real) | Operation(op: Operator, left: Expression, right: Expression)

  /** `operator`: one of `/`, `*`, `+`, `-`. */
  function ParseOperator(s: string): (r: Res<Operator>)
    ensures !r.Failure?
    ensures r.Ok? <==> s != [] && IsOperatorChar(s[0])
    ensures r.Ok? ==> r.rest == s[1..] && OpChar(r.value) == s[0]
  {
    if s == [] then Error
    else if s[0] == '/' then Ok(Divide, s[1..])
    else if s[0] == '*' then Ok(Multiply, s[1..])
    else if s[0] == '+' then Ok(Add, s[1..])
    else if s[0] == '-' then Ok(Minus, s[1..])
    else Error
  }

  predicate IsOperatorChar(c: char) { c == '/' || c == '*' || c == '+' || c == '-' }

  function OpChar(op: Operator): char {
    match op
    case Divide => '/'
    case Multiply => '*'
    case Add => '+'
    case Minus => '-'
  }

  /** Length of `recognize(tuple((opt(char('-')), digit0, opt(preceded(char('.'), digit1)))))`:
    * a '.' is part of the literal only when a digit follows it. */
  function LiteralLength(s: string): (n: nat)
    ensures n <= |s|
  {
    var sign := if s != [] && s[0] == '-' then 1 else 0;
    var a := sign + SpanOf(IsDigit, s[sign..]);
    var t := s[a..];
    if |t| >= 2 && t[0] == '.' && IsDigit(t[1]) then a + 1 + SpanOf(IsDigit, t[1..]) else a
  }

  /** `value`: the literal text read as a decimal; text without a digit fails. */
  function ParseValue(s: string): (r: Res<real>)
    ensures !r.Failure?
    ensures r.Ok? ==> |r.rest| < |s| && r.rest == s[LiteralLength(s)..]
  {
    var n := LiteralLength(s);
    var v := Decimals.FromStr(s[..n]);
    if v.None? then Error else Ok(v.value, s[n..])
  }

  /** `expression`: an operation if one can be read, otherwise a literal. */
  function Expr(s: string): (r: Res<Expression>)
    ensures !r.Failure?
    ensures r.Ok? ==> |r.rest| < |s|
    decreases |s|, 1
  {
    var op := ParseOperation(s);
    if op.Ok? then op else
    var v := ParseValue(s);
    if !v.Ok? then Error else Ok(Value(v.value), v.rest)
  }

  /** `operation`: a literal, blanks, an operator, blanks, an expression. */
  function ParseOperation(s: string): (r: Res<Expression>)
    ensures !r.Failure?
    ensures r.Ok? ==> |r.rest| < |s|
    decreases |s|, 0
  {
    var left := ParseValue(s);
    if !left.Ok? then Error else
    var op := ParseOperator(Space0(left.rest));
    if !op.Ok? then Error else
    var right := Expr(Space0(op.rest));
    if !right.Ok? then Error else Ok(Operation(op.value, Value(left.value), right.value), right.rest)
  }

  // ------------------------------------------------------------- properties

  /** What may follow a natural-number literal without extending it. */
  predicate EndsNumber(rest: string) {
    rest == [] || (!IsDigit(rest[0]) && rest[0] != '.')
  }

  /** A run of digits is read as the number it denotes. */
  lemma ValueOfNat(n: nat, rest: string)
    requires EndsNumber(rest)
    ensures ParseValue(NatText(n) + rest) == Ok(n as real, rest)
  {
    var ds := NatText(n);
    var s := ds + rest;
    assert s[0] == ds[0];
    SpanOfPrefix(IsDigit, ds, rest);
    assert SpanOf(IsDigit, rest) == 0;
    assert s[0..] == s;
    assert s[|ds|..] == rest;
    assert LiteralLength(s) == |ds|;
    assert s[..|ds|] == ds;
    NatTextValue(n);
  }

  /** A literal not followed by an operator is an expression of its own. */
  lemma ExprOfValue(s: string, v: real, rest: string)
    requires ParseValue(s) == Ok(v, rest)
    requires !ParseOperator(Space0(rest)).Ok?
    ensures Expr(s) == Ok(Value(v), rest)
  {
  }

  /** A literal, an operator and an expression make an operation whose right
    * operand is the whole expression. */
  lemma ExprOfOperation(s: string, v: real, a: string, op: Operator, b: string, e: Expression, c: string)
    requires ParseValue(s) == Ok(v, a)
    requires ParseOperator(Space0(a)) == Ok(op, b)
    requires Expr(Space0(b)) == Ok(e, c)
    ensures Expr(s) == Ok(Operation(op, Value(v), e), c)
  {
  }

  /** `n0 op1 n1 op2 n2 ...` with `gap` around every operator. */
  function ChainThen(first: nat, pairs: seq<(Operator, nat)>, gap: string, rest: string): string
    decreases |pairs|
  {
    NatText(first) + if pairs == [] then rest
                     else gap + ([OpChar(pairs[0].0)] + (gap + ChainThen(pairs[0].1, pairs[1..], gap, rest)))
  }

  /** The tree such a chain stands for: each operator takes the literal on its
    * left and everything on its right. */
  function RightNested(first: nat, pairs: seq<(Operator, nat)>): Expression
    decreases |pairs|
  {
    if pairs == [] then Value(first as real)
    else Operation(pairs[0].0, Value(first as real), RightNested(pairs[0].1, pairs[1..]))
  }

  predicate Blanks(gap: string) { forall i :: 0 <= i < |gap| ==> IsBlank(gap[i]) }

  /** What may end a chain: not part of the last literal, and no operator
    * after blanks. */
  predicate Stops(rest: string) {
    EndsNumber(rest) && !ParseOperator(Space0(rest)).Ok?
  }

  /** Chains of any length nest to the right, with no precedence between
    * operators: `1 * 2 + 3` is `1 * (2 + 3)`. */
  lemma {:induction false} ParseChain(first: nat, pairs: seq<(Operator, nat)>, gap: string, rest: string)
    requires Blanks(gap) && Stops(rest)
    ensures Expr(ChainThen(first, pairs, gap, rest)) == Ok(RightNested(first, pairs), rest)
    decreases |pairs|
  {
    if pairs == [] {
      assert ChainThen(first, pairs, gap, rest) == NatText(first) + rest;
      ValueOfNat(first, rest);
      ExprOfValue(NatText(first) + rest, first as real, rest);
    } else {
      var op := pairs[0].0;
      var tail := ChainThen(pairs[0].1, pairs[1..], gap, rest);
      var a := gap + ([OpChar(op)] + (gap + tail));
      assert ChainThen(first, pairs, gap, rest) == NatText(first) + a;
      ParseChain(pairs[0].1, pairs[1..], gap, rest);
      ChainStep(first, op, gap, tail);
      ExprOfOperation(NatText(first) + a, first as real, a, op, gap + tail,
                      RightNested(pairs[0].1, pairs[1..]), rest);
    }
  }

  /** One link of a chain: the literal, then blanks and an operator. */
  lemma ChainStep(first: nat, op: Operator, gap: string, tail: string)
    requires Blanks(gap)
    requires tail != [] && IsDigit(tail[0])
    ensures var a := gap + ([OpChar(op)] + (gap + tail));
            ParseValue(NatText(first) + a) == Ok(first as real, a) &&
            ParseOperator(Space0(a)) == Ok(op, gap + tail) &&
            Space0(gap + tail) == tail
  {
    var b := [OpChar(op)] + (gap + tail);
    OperatorAfterGap(op, gap, gap + tail);
    Space0OfBlanks(gap, tail);
    ValueOfNat(first, gap + b);
  }

  lemma OperatorAfterGap(op: Operator, gap: string, after: string)
    requires Blanks(gap)
    ensures var a := gap + ([OpChar(op)] + after);
            EndsNumber(a) && ParseOperator(Space0(a)) == Ok(op, after)
  {
    var b := [OpChar(op)] + after;
    Space0OfBlanks(gap, b);
    assert b[1..] == after;
    if gap != [] {
      assert (gap + b)[0] == gap[0];
    } else {
      assert gap + b == b;
    }
  }

  /** A chain starts with a digit. */
  lemma ChainStart(first: nat, pairs: seq<(Operator, nat)>, gap: string, rest: string)
    ensures ChainThen(first, pairs, gap, rest) != [] && IsDigit(ChainThen(first, pairs, gap, rest)[0])
  {
    var ds := NatText(first);
    assert ChainThen(first, pairs, gap, rest)[0] == ds[0];
  }

  /** A leading `+` is not part of a literal here. */
  lemma PlusRejected(rest: string)
    ensures Expr("+" + rest).Error?
  {
    var s := "+" + rest;
    assert SpanOf(IsDigit, s) == 0;
    assert LiteralLength(s) == 0;
    assert s[..0] == [];
    Decimals.FromStrNeedsDigit([]);
  }

  /** A '.' must be followed by a digit to belong to the literal: `1.` reads
    * `1` and leaves the '.'. */
  lemma DotNeedsDigit(n: nat, rest: string)
    requires rest == [] || !IsDigit(rest[0])
    ensures ParseValue(NatText(n) + "." + rest) == Ok(n as real, "." + rest)
  {
    var ds := NatText(n);
    var s := ds + ("." + rest);
    assert ds + "." + rest == s;
    assert LiteralLength(s) == |ds| by {
      SpanOfPrefix(IsDigit, ds, "." + rest);
      assert SpanOf(IsDigit, "." + rest) == 0;
      assert s[0] == ds[0] && s[0..] == s;
      assert s[|ds|..] == "." + rest;
    }
    LiteralOfNat(n, "." + rest);
  }

  /** The digits of `n`, when the literal ends after them, read as `n`. */
  lemma LiteralOfNat(n: nat, rest: string)
    requires LiteralLength(NatText(n) + rest) == |NatText(n)|
    ensures ParseValue(NatText(n) + rest) == Ok(n as real, rest)
  {
    var ds := NatText(n);
    assert (ds + rest)[..|ds|] == ds && (ds + rest)[|ds|..] == rest;
    NatTextValue(n);
  }

  /** Any literal `value` accepts, with or without sign and fraction, reads
    * back as the number it denotes when the text after it cannot extend it. */
  lemma ValueOfDecimal(negative: bool, intPart: string, dot: bool, fracPart: string, rest: string)
    requires AllDigits(intPart) && AllDigits(fracPart)
    requires dot ==> fracPart != []
    requires !dot ==> fracPart == [] && intPart != []
    requires rest == [] || (!IsDigit(rest[0]) && rest[0] != '.')
    ensures ParseValue(Decimals.DecimalText(negative, intPart, dot, fracPart) + rest) ==
            Ok(Decimals.LiteralValue(negative, intPart, dot, fracPart), rest)
  {
    var text := Decimals.DecimalText(negative, intPart, dot, fracPart);
    var s := text + rest;
    assert LiteralLength(s) == |text| by {
      LengthOfDecimal(negative, intPart, dot, fracPart, rest);
    }
    assert s[..|text|] == text && s[|text|..] == rest;
    Decimals.FromStrDecimalText(negative, intPart, dot, fracPart);
  }

  /** The literal scanner stops exactly at the end of such a literal. */
  lemma LengthOfDecimal(negative: bool, intPart: string, dot: bool, fracPart: string, rest: string)
    requires AllDigits(intPart) && AllDigits(fracPart)
    requires dot ==> fracPart != []
    requires !dot ==> fracPart == [] && intPart != []
    requires rest == [] || (!IsDigit(rest[0]) && rest[0] != '.')
    ensures LiteralLength(Decimals.DecimalText(negative, intPart, dot, fracPart) + rest) ==
            |Decimals.DecimalText(negative, intPart, dot, fracPart)|
  {
    var text := Decimals.DecimalText(negative, intPart, dot, fracPart);
    var tail := (if dot then "." + fracPart else "") + rest;
    assert text + rest == (if negative then "-" else "") + (intPart + tail);
    assert |text| == (if negative then 1 else 0) + |intPart| + (if dot then 1 + |fracPart| else 0);
    ScanParts(negative, intPart, dot, fracPart, rest);
  }

  /** The three scans of `LiteralLength` over a sign, integer digits and an
    * optional fraction, followed by text that cannot extend the literal. */
  lemma ScanParts(negative: bool, intPart: string, dot: bool, fracPart: string, rest: string)
    requires AllDigits(intPart) && AllDigits(fracPart)
    requires dot ==> fracPart != []
    requires !dot ==> fracPart == [] && intPart != []
    requires rest == [] || (!IsDigit(rest[0]) && rest[0] != '.')
    ensures var tail := (if dot then "." + fracPart else "") + rest;
            LiteralLength((if negative then "-" else "") + (intPart + tail)) ==
            (if negative then 1 else 0) + |intPart| + (if dot then 1 + |fracPart| else 0)
  {
    var sign := if negative then 1 else 0;
    var tail := (if dot then "." + fracPart else "") + rest;
    var s := (if negative then "-" else "") + (intPart + tail);
    assert (tail == [] || !IsDigit(tail[0])) && (intPart == [] ==> tail != [] && tail[0] != '-') by {
      assert dot ==> tail[0] == '.';
    }
    IntegerScan(negative, intPart, tail, s, sign);
    var more := if |tail| >= 2 && tail[0] == '.' && IsDigit(tail[1]) then 1 + SpanOf(IsDigit, tail[1..]) else 0;
    assert more == (if dot then 1 + |fracPart| else 0) by {
      if dot {
        FractionScan(fracPart, rest);
      }
    }
    LengthSteps(s, sign, |intPart|, tail);
  }

  /** The sign and the integer digits are scanned up to where `tail` begins. */
  lemma IntegerScan(negative: bool, intPart: string, tail: string, s: string, sign: nat)
    requires AllDigits(intPart)
    requires tail == [] || !IsDigit(tail[0])
    requires intPart == [] ==> tail != [] && tail[0] != '-'
    requires sign == (if negative then 1 else 0)
    requires s == (if negative then "-" else "") + (intPart + tail)
    ensures sign == (if s != [] && s[0] == '-' then 1 else 0)
    ensures sign <= |s| && SpanOf(IsDigit, s[sign..]) == |intPart|
    ensures s[sign + |intPart|..] == tail
  {
    assert s[sign..] == intPart + tail;
    SpanOfPrefix(IsDigit, intPart, tail);
    assert SpanOf(IsDigit, tail) == 0;
    assert !negative && s != [] ==> s[0] == (intPart + tail)[0];
  }

  /** After the '.', the fraction's digits are scanned up to where `rest` begins. */
  lemma FractionScan(fracPart: string, rest: string)
    requires AllDigits(fracPart) && fracPart != []
    requires rest == [] || !IsDigit(rest[0])
    ensures var tail := "." + fracPart + rest;
            |tail| >= 2 && tail[0] == '.' && IsDigit(tail[1]) && SpanOf(IsDigit, tail[1..]) == |fracPart|
  {
    var tail := "." + fracPart + rest;
    assert tail[1..] == fracPart + rest;
    SpanOfPrefix(IsDigit, fracPart, rest);
  }

  /** `LiteralLength` read as its three scans, each from where the last stopped. */
  lemma LengthSteps(s: string, sign: nat, digits: nat, tail: string)
    requires sign == (if s != [] && s[0] == '-' then 1 else 0)
    requires sign <= |s| && SpanOf(IsDigit, s[sign..]) == digits
    requires s[sign + digits..] == tail
    ensures LiteralLength(s) ==
            sign + digits + (if |tail| >= 2 && tail[0] == '.' && IsDigit(tail[1]) then 1 + SpanOf(IsDigit, tail[1..]) else 0)
  {
  }
}
