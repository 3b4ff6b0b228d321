/**
 * src/amount/expression.rs: arithmetic expressions over decimals, parsed by
 * precedence climbing (`*` and `/` bind tighter than `+` and `-`, operators of
 * one level associate to the left, parentheses override) and evaluated
 * recursively.
 */
module AmountExpression {
  import opened Nom
  import opened Decimals

  datatype Operator = Divide | Multiply | Add | Subtract

  datatype Expression = Value(value: real) | Operation(op: Operator, left: Expression, right: Expression)

  /** `Operator::evaluate`. */
  function Apply(op: Operator, left: real, right: real): real {
    match op
    case Divide => Div(left, right)
    case Multiply => left * right
    case Add => left + right
    case Subtract => left - right
  }

  /** `Expression::evaluate`: total, bottom-up. */
  function Evaluate(e: Expression): real {
    match e
    case Value(v) => v
    case Operation(op, l, r) => Apply(op, Evaluate(l), Evaluate(r))
  }

  /** `Expression::from_iter`: folds the operator/operand pairs from the left,
    * each one becoming the right operand of a new root. */
  function FromIter(left: Expression, rights: seq<(Operator, Expression)>): (r: Expression)
    ensures rights == [] ==> r == left
    ensures rights != [] ==> r.Operation? && r.op == rights[|rights| - 1].0 && r.right == rights[|rights| - 1].1
    decreases |rights|
  {
    if rights == [] then left else FromIter(Operation(rights[0].0, left, rights[0].1), rights[1..])
  }

  // ------------------------------------------------------------------ parser

  /** Length of the text `recognize(tuple((opt(one_of("-+")), digit0,
    * opt(char('.')), opt(digit1))))` matches; it always succeeds. */
  function LiteralLength(s: string): (n: nat)
    ensures n <= |s|
  {
    var sign := if s != [] && (s[0] == '-' || s[0] == '+') then 1 else 0;
    var a := sign + SpanOf(IsDigit, s[sign..]);
    var dot := if s[a..] != [] && s[a..][0] == '.' then 1 else 0;
    a + dot + SpanOf(IsDigit, s[a..][dot..])
  }

  /** `value`: the literal text, without a leading '+', read as a decimal. */
  function ParseValue(s: string): (r: Res<real>)
    ensures !r.Failure?
    ensures r.Ok? ==> |r.rest| < |s|
  {
    var n := LiteralLength(s);
    var v := FromStr(StripPlus(s[..n]));
    if v.None? then Error else Ok(v.value, s[n..])
  }

  function MulOperator(s: string): (r: Res<Operator>)
    ensures !r.Failure?
    ensures r.Ok? ==> s != [] && r.rest == s[1..] && (r.value == Multiply || r.value == Divide)
  {
    if Char('*', s).Ok? then Ok(Multiply, s[1..])
    else if Char('/', s).Ok? then Ok(Divide, s[1..])
    else Error
  }

  function AddOperator(s: string): (r: Res<Operator>)
    ensures !r.Failure?
    ensures r.Ok? ==> s != [] && r.rest == s[1..] && (r.value == Add || r.value == Subtract)
  {
    if Char('+', s).Ok? then Ok(Add, s[1..])
    else if Char('-', s).Ok? then Ok(Subtract, s[1..])
    else Error
  }

  /** `exp_p0`: a parenthesised expression with optional blanks inside the
    * parentheses, or else a literal. */
  function P0(s: string): (r: Res<Expression>)
    decreases |s|, 0
    ensures !r.Failure?
    ensures r.Ok? ==> |r.rest| < |s|
  {
    var open := Char('(', s);
    var inner := if open.Ok? then P2(Space0(open.rest)) else Error;
    var close := if inner.Ok? then Char(')', Space0(inner.rest)) else Error;
    if close.Ok? then Ok(inner.value, close.rest)
    else
      var v := ParseValue(s);
      if v.Ok? then Ok(Value(v.value), v.rest) else Error
  }

  /** The `many0` of `exp_p1`: blanks, `*` or `/`, blanks, operand. */
  function P1Tail(s: string): (r: Res<seq<(Operator, Expression)>>)
    decreases |s|, 1
    ensures r.Ok? && |r.rest| <= |s|
  {
    var op := MulOperator(Space0(s));
    if !op.Ok? then Ok([], s) else
    var operand := P0(Space0(op.rest));
    if !operand.Ok? then Ok([], s) else
    var more := P1Tail(operand.rest);
    Ok([(op.value, operand.value)] + more.value, more.rest)
  }

  /** `exp_p1`: an operand and the `*`/`/` pairs after it, folded to the left. */
  function P1(s: string): (r: Res<Expression>)
    decreases |s|, 2
    ensures !r.Failure?
    ensures r.Ok? ==> |r.rest| < |s|
  {
    var left := P0(s);
    if !left.Ok? then Error else
    var tail := P1Tail(left.rest);
    Ok(FromIter(left.value, tail.value), tail.rest)
  }

  /** The `many0` of `exp_p2`: blanks, `+` or `-`, blanks, operand. */
  function P2Tail(s: string): (r: Res<seq<(Operator, Expression)>>)
    decreases |s|, 3
    ensures r.Ok? && |r.rest| <= |s|
  {
    var op := AddOperator(Space0(s));
    if !op.Ok? then Ok([], s) else
    var operand := P1(Space0(op.rest));
    if !operand.Ok? then Ok([], s) else
    var more := P2Tail(operand.rest);
    Ok([(op.value, operand.value)] + more.value, more.rest)
  }

  /** `exp_p2`: a term and the `+`/`-` pairs after it, folded to the left. */
  function P2(s: string): (r: Res<Expression>)
    decreases |s|, 4
    ensures !r.Failure?
    ensures r.Ok? ==> |r.rest| < |s|
  {
    var left := P1(s);
    if !left.Ok? then Error else
    var tail := P2Tail(left.rest);
    Ok(FromIter(left.value, tail.value), tail.rest)
  }

  /** `parse`. */
  function Parse(s: string): (r: Res<Expression>)
    ensures !r.Failure?
    ensures r.Ok? ==> |r.rest| < |s|
  {
    P2(s)
  }

  // -------------------------------------------------------------- properties

  /** Operators of one level associate to the left: the pair folded last is
    * the root, and everything before it is its left operand. */
  lemma {:induction false} FromIterSnoc(left: Expression, rights: seq<(Operator, Expression)>, op: Operator, right: Expression)
    ensures FromIter(left, rights + [(op, right)]) == Operation(op, FromIter(left, rights), right)
    decreases |rights|
  {
    if rights == [] {
      assert rights + [(op, right)] == [(op, right)];
    } else {
      assert (rights + [(op, right)])[1..] == rights[1..] + [(op, right)];
      FromIterSnoc(Operation(rights[0].0, left, rights[0].1), rights[1..], op, right);
    }
  }

  /** Each operator means its arithmetic: subtracting undoes adding, and
    * dividing by a non-zero number undoes multiplying by it. */
  lemma ApplyInverses(l: real, r: real)
    ensures Apply(Subtract, Apply(Add, l, r), r) == l
    ensures r != 0.0 ==> Apply(Multiply, Apply(Divide, l, r), r) == l
  {
  }

  /** The value of a folded chain, computed directly from the operand values. */
  function FoldValues(acc: real, rights: seq<(Operator, Expression)>): real
    decreases |rights|
  {
    if rights == [] then acc else FoldValues(Apply(rights[0].0, acc, Evaluate(rights[0].1)), rights[1..])
  }

  /** Evaluating a folded chain applies the operators left to right. */
  lemma {:induction false} EvaluateFromIter(left: Expression, rights: seq<(Operator, Expression)>)
    ensures Evaluate(FromIter(left, rights)) == FoldValues(Evaluate(left), rights)
    decreases |rights|
  {
    if rights != [] {
      EvaluateFromIter(Operation(rights[0].0, left, rights[0].1), rights[1..]);
    }
  }

  /** What may follow a literal without being read as part of it. */
  predicate EndsLiteral(rest: string, dot: bool) {
    rest == [] || (!IsDigit(rest[0]) && (dot || rest[0] != '.'))
  }

  /** The text the literal scanner takes: the sign, the integer digits, and the
    * '.' with the fraction digits when present. */
  lemma LiteralLengthOf(sign: string, intPart: string, dot: bool, fracPart: string, rest: string)
    requires sign == "" || sign == "-" || sign == "+"
    requires AllDigits(intPart) && AllDigits(fracPart)
    requires intPart != [] || dot
    requires !dot ==> fracPart == []
    requires EndsLiteral(rest, dot)
    ensures LiteralLength(sign + UnsignedText(intPart, dot, fracPart) + rest) == |sign| + |UnsignedText(intPart, dot, fracPart)|
  {
    var afterInt := (if dot then "." + fracPart else "") + rest;
    LiteralPieces(sign, intPart, dot, fracPart, rest);
    LiteralLengthOfParts(sign, intPart, afterInt, dot, fracPart, rest);
  }

  lemma LiteralLengthOfParts(sign: string, intPart: string, afterInt: string, dot: bool, fracPart: string, rest: string)
    requires sign == "" || sign == "-" || sign == "+"
    requires AllDigits(intPart) && AllDigits(fracPart)
    requires intPart != [] || dot
    requires !dot ==> fracPart == []
    requires EndsLiteral(rest, dot)
    requires afterInt == (if dot then "." + fracPart else "") + rest
    ensures LiteralLength(sign + (intPart + afterInt)) == |sign| + |intPart| + (if dot then 1 else 0) + |fracPart|
  {
    var s := sign + (intPart + afterInt);
    LiteralParts(s, sign, intPart, afterInt, dot, fracPart, rest);
    LiteralLengthFrom(s, |sign|, |intPart|, if dot then 1 else 0, |fracPart|);
  }

  /** The four lengths the scanner measures on a literal built from parts. */
  lemma LiteralParts(s: string, sign: string, intPart: string, afterInt: string, dot: bool, fracPart: string, rest: string)
    requires sign == "" || sign == "-" || sign == "+"
    requires AllDigits(intPart) && AllDigits(fracPart)
    requires intPart != [] || dot
    requires !dot ==> fracPart == []
    requires EndsLiteral(rest, dot)
    requires afterInt == (if dot then "." + fracPart else "") + rest
    requires s == sign + (intPart + afterInt)
    ensures |sign| == (if s != [] && (s[0] == '-' || s[0] == '+') then 1 else 0)
    ensures SpanOf(IsDigit, s[|sign|..]) == |intPart|
    ensures |sign| + |intPart| <= |s| && s[|sign| + |intPart|..] == afterInt
    ensures (if dot then 1 else 0) == (if afterInt != [] && afterInt[0] == '.' then 1 else 0)
    ensures SpanOf(IsDigit, afterInt[if dot then 1 else 0..]) == |fracPart|
  {
    var u := intPart + afterInt;
    assert u != [] && (IsDigit(u[0]) || u[0] == '.');
    SignLength(sign, u);
    IntegerDigits(intPart, afterInt, dot, fracPart, rest);
    DropPrefix(intPart, afterInt);
    DropTwice(s, |sign|, |intPart|);
    FractionDigits(afterInt, dot, fracPart, rest);
  }

  /** `LiteralLength` from its four parts. */
  lemma LiteralLengthFrom(s: string, signLen: nat, intLen: nat, dotLen: nat, fracLen: nat)
    requires signLen == (if s != [] && (s[0] == '-' || s[0] == '+') then 1 else 0)
    requires SpanOf(IsDigit, s[signLen..]) == intLen
    requires dotLen == (if s[signLen + intLen..] != [] && s[signLen + intLen..][0] == '.' then 1 else 0)
    requires SpanOf(IsDigit, s[signLen + intLen..][dotLen..]) == fracLen
    ensures LiteralLength(s) == signLen + intLen + dotLen + fracLen
  {
  }

  /** The scanner's optional sign is exactly `sign`. */
  lemma SignLength(sign: string, u: string)
    requires sign == "" || sign == "-" || sign == "+"
    requires u != [] && (IsDigit(u[0]) || u[0] == '.')
    ensures var s := sign + u;
            (if s != [] && (s[0] == '-' || s[0] == '+') then 1 else 0) == |sign| && s[|sign|..] == u
  {
    var s := sign + u;
    if sign == "" { assert s[0] == u[0]; }
  }

  lemma LiteralPieces(sign: string, intPart: string, dot: bool, fracPart: string, rest: string)
    ensures sign + UnsignedText(intPart, dot, fracPart) + rest ==
              sign + (intPart + ((if dot then "." + fracPart else "") + rest))
  {
  }

  lemma IntegerDigits(intPart: string, afterInt: string, dot: bool, fracPart: string, rest: string)
    requires AllDigits(intPart) && EndsLiteral(rest, dot)
    requires afterInt == (if dot then "." + fracPart else "") + rest
    ensures SpanOf(IsDigit, intPart + afterInt) == |intPart|
  {
    SpanOfPrefix(IsDigit, intPart, afterInt);
    if afterInt != [] {
      assert afterInt[0] == (if dot then '.' else rest[0]);
    }
  }

  lemma FractionDigits(afterInt: string, dot: bool, fracPart: string, rest: string)
    requires AllDigits(fracPart) && EndsLiteral(rest, dot)
    requires !dot ==> fracPart == []
    requires afterInt == (if dot then "." + fracPart else "") + rest
    ensures var dotLen := if afterInt != [] && afterInt[0] == '.' then 1 else 0;
            dotLen == (if dot then 1 else 0) &&
            SpanOf(IsDigit, afterInt[dotLen..]) == |fracPart|
  {
    if dot {
      assert afterInt[1..] == fracPart + rest;
      SpanOfPrefix(IsDigit, fracPart, rest);
    }
  }

  /** A literal with at least one digit reads as the number it denotes; a
    * leading '+' is dropped and a leading '-' negates. */
  lemma ParseValueOfLiteral(sign: string, intPart: string, dot: bool, fracPart: string, rest: string)
    requires sign == "" || sign == "-" || sign == "+"
    requires AllDigits(intPart) && AllDigits(fracPart)
    requires intPart != [] || (dot && fracPart != [])
    requires !dot ==> fracPart == []
    requires EndsLiteral(rest, dot)
    ensures ParseValue(sign + UnsignedText(intPart, dot, fracPart) + rest) ==
              Ok(LiteralValue(sign == "-", intPart, dot, fracPart), rest)
  {
    var body := UnsignedText(intPart, dot, fracPart);
    LiteralLengthOf(sign, intPart, dot, fracPart, rest);
    SignStripped(sign, intPart, dot, fracPart);
    FromStrDecimalText(sign == "-", intPart, dot, fracPart);
    ValueOfPrefix(sign + body, rest);
  }

  /** The literal text is what `value` hands to the decimal type. */
  lemma ValueOfPrefix(lit: string, rest: string)
    requires LiteralLength(lit + rest) == |lit|
    requires FromStr(StripPlus(lit)).Some?
    ensures ParseValue(lit + rest) == Ok(FromStr(StripPlus(lit)).value, rest)
  {
    SplitAt(lit + rest, |lit|);
    assert (lit + rest)[..|lit|] == lit && (lit + rest)[|lit|..] == rest;
  }

  /** A '+' is dropped and a '-' kept. */
  lemma SignStripped(sign: string, intPart: string, dot: bool, fracPart: string)
    requires sign == "" || sign == "-" || sign == "+"
    requires AllDigits(intPart)
    requires intPart != [] || dot
    ensures StripPlus(sign + UnsignedText(intPart, dot, fracPart)) == DecimalText(sign == "-", intPart, dot, fracPart)
  {
    var body := UnsignedText(intPart, dot, fracPart);
    if sign == "+" { assert (sign + body)[1..] == body; }
    else if sign == "" { assert sign + body == body; }
    else { assert body[0] != '+' by { UnsignedStart(intPart, dot, fracPart); } }
  }

  /** A literal scan that takes no digit, as on empty input, `-` or `.`, fails. */
  lemma ParseValueNeedsDigit(s: string)
    requires forall i :: 0 <= i < LiteralLength(s) ==> !IsDigit(s[i])
    ensures ParseValue(s).Error?
  {
    var n := LiteralLength(s);
    var t := StripPlus(s[..n]);
    assert forall i :: 0 <= i < |t| ==> !IsDigit(t[i]) by {
      if s[..n] != [] && s[..n][0] == '+' {
        assert forall i :: 0 <= i < |t| ==> t[i] == s[i + 1];
      }
    }
    FromStrNeedsDigit(t);
  }

  /** Characters that can begin an expression. */
  predicate StartsExpression(c: char) { IsDigit(c) || c == '-' || c == '+' || c == '.' || c == '(' }

  /** Text that does not begin like a literal or a parenthesis is not an
    * expression. */
  lemma NotAnExpression(s: string)
    requires s == [] || !StartsExpression(s[0])
    ensures Parse(s).Error?
  {
    assert LiteralLength(s) == 0;
    ParseValueNeedsDigit(s);
    assert P0(s).Error?;
    assert P1(s).Error?;
  }

  // ------------------------------------------------- printing and precedence

  /** Expressions whose leaves are written as natural numbers: the shapes the
    * printer below writes out. */
  datatype Term = Lit(n: nat) | Op(op: Operator, left: Term, right: Term)

  function ToExpression(t: Term): Expression {
    match t
    case Lit(n) => Value(n as real)
    case Op(op, l, r) => Operation(op, ToExpression(l), ToExpression(r))
  }

  function OpChar(op: Operator): char {
    match op
    case Divide => '/'
    case Multiply => '*'
    case Add => '+'
    case Subtract => '-'
  }

  /** The operators of `exp_p1`, which bind tighter. */
  predicate IsMul(op: Operator) { op == Multiply || op == Divide }

  predicate Blanks(gap: string) { forall i :: 0 <= i < |gap| ==> IsBlank(gap[i]) }

  /** An operator with `gap` on both sides, then `after`. */
  function OpText(op: Operator, gap: string, after: string): string {
    gap + ([OpChar(op)] + (gap + after))
  }

  /** `t` written out and followed by `rest`; every operation is parenthesised,
    * and `gap` surrounds every operator. */
  function PrintThen(t: Term, gap: string, rest: string): string {
    match t
    case Lit(n) => NatText(n) + rest
    case Op(op, l, r) => "(" + PrintThen(l, gap, OpText(op, gap, PrintThen(r, gap, ")" + rest)))
  }

  function Print(t: Term, gap: string): string {
    PrintThen(t, gap, [])
  }

  /** What may follow an expression and end both operator loops. */
  predicate IsOperatorChar(c: char) { c == '*' || c == '/' || c == '+' || c == '-' }

  /** What may follow an expression: it cannot extend the last literal, and
    * after any blanks no operator comes. */
  predicate Stops(stop: string) {
    EndsLiteral(stop, false) && (Space0(stop) == [] || !IsOperatorChar(Space0(stop)[0]))
  }

  lemma ParenStops(rest: string)
    ensures Stops(")" + rest)
  {
    CloseStops(")" + rest);
  }

  lemma CloseStops(s: string)
    requires s != [] && s[0] == ')'
    ensures Stops(s)
  {
    Space0Keeps(s);
  }

  lemma PrintStart(t: Term, gap: string, rest: string)
    ensures PrintThen(t, gap, rest) != []
    ensures !IsBlank(PrintThen(t, gap, rest)[0])
  {
    if t.Lit? { assert PrintThen(t, gap, rest)[0] == NatText(t.n)[0]; }
  }

  lemma OpTextStart(op: Operator, gap: string, after: string)
    requires Blanks(gap)
    ensures EndsLiteral(OpText(op, gap, after), false)
    ensures Space0(OpText(op, gap, after)) == [OpChar(op)] + (gap + after)
  {
    Space0OfBlanks(gap, [OpChar(op)] + (gap + after));
    if gap == [] {
      assert OpText(op, gap, after)[0] == OpChar(op);
    }
  }

  /** `space0` leaves text that starts with a non-blank alone. */
  lemma Space0Keeps(x: string)
    requires x == [] || !IsBlank(x[0])
    ensures Space0(x) == x
  {
    Space0OfBlanks([], x);
    assert [] + x == x;
  }

  /** Both operator loops end, consuming nothing, before ')' or the end. */
  lemma TailsStop(stop: string)
    requires Stops(stop)
    ensures P1Tail(stop) == Ok([], stop)
    ensures P2Tail(stop) == Ok([], stop)
  {
    assert !MulOperator(Space0(stop)).Ok?;
    assert !AddOperator(Space0(stop)).Ok?;
  }

  lemma P1Unfold(x: string)
    requires P0(x).Ok?
    ensures P1(x) == Ok(FromIter(P0(x).value, P1Tail(P0(x).rest).value), P1Tail(P0(x).rest).rest)
  {
  }

  lemma P2Unfold(x: string)
    requires P1(x).Ok?
    ensures P2(x) == Ok(FromIter(P1(x).value, P2Tail(P1(x).rest).value), P2Tail(P1(x).rest).rest)
  {
  }

  lemma P1TailTake(s: string, op: Operator, after: string, e: Expression, z: string, more: seq<(Operator, Expression)>, w: string)
    requires MulOperator(Space0(s)) == Ok(op, after)
    requires P0(Space0(after)) == Ok(e, z)
    requires P1Tail(z) == Ok(more, w)
    ensures P1Tail(s) == Ok([(op, e)] + more, w)
  {
  }

  lemma P2TailTake(s: string, op: Operator, after: string, e: Expression, z: string, more: seq<(Operator, Expression)>, w: string)
    requires AddOperator(Space0(s)) == Ok(op, after)
    requires P1(Space0(after)) == Ok(e, z)
    requires P2Tail(z) == Ok(more, w)
    ensures P2Tail(s) == Ok([(op, e)] + more, w)
  {
  }

  lemma P1TailNone(s: string)
    requires !MulOperator(Space0(s)).Ok?
    ensures P1Tail(s) == Ok([], s)
  {
  }

  lemma P2TailNone(s: string)
    requires !AddOperator(Space0(s)).Ok?
    ensures P2Tail(s) == Ok([], s)
  {
  }

  /** The operator characters are read back as their operator, each by the
    * parser of its own level only. */
  lemma OperatorOf(op: Operator, t: string)
    ensures IsMul(op) ==> MulOperator([OpChar(op)] + t) == Ok(op, t)
    ensures IsMul(op) ==> !AddOperator([OpChar(op)] + t).Ok?
    ensures !IsMul(op) ==> AddOperator([OpChar(op)] + t) == Ok(op, t)
    ensures !IsMul(op) ==> !MulOperator([OpChar(op)] + t).Ok?
  {
    assert ([OpChar(op)] + t)[1..] == t;
  }

  /** After the operator, the blanks of `gap` are skipped. */
  lemma AfterOperator(gap: string, y: string)
    requires Blanks(gap)
    requires y != [] && !IsBlank(y[0])
    ensures Space0(gap + y) == y
  {
    Space0OfBlanks(gap, y);
  }

  /** A `*` or `/` pair is taken by the loop of `exp_p1`. */
  lemma MulStep(op: Operator, gap: string, y: string, e: Expression, z: string, more: seq<(Operator, Expression)>, w: string)
    requires IsMul(op) && Blanks(gap)
    requires y != [] && !IsBlank(y[0])
    requires P0(y) == Ok(e, z)
    requires P1Tail(z) == Ok(more, w)
    ensures P1Tail(OpText(op, gap, y)) == Ok([(op, e)] + more, w)
  {
    OpTextStart(op, gap, y);
    OperatorOf(op, gap + y);
    AfterOperator(gap, y);
    P1TailTake(OpText(op, gap, y), op, gap + y, e, z, more, w);
  }

  /** A `+` or `-` pair is left alone by the loop of `exp_p1`. */
  lemma AddSkipsMul(op: Operator, gap: string, y: string)
    requires !IsMul(op) && Blanks(gap)
    ensures P1Tail(OpText(op, gap, y)) == Ok([], OpText(op, gap, y))
  {
    OpTextStart(op, gap, y);
    OperatorOf(op, gap + y);
    P1TailNone(OpText(op, gap, y));
  }

  /** A `+` or `-` pair is taken by the loop of `exp_p2`. */
  lemma AddStep(op: Operator, gap: string, y: string, e: Expression, z: string, more: seq<(Operator, Expression)>, w: string)
    requires !IsMul(op) && Blanks(gap)
    requires y != [] && !IsBlank(y[0])
    requires P1(y) == Ok(e, z)
    requires P2Tail(z) == Ok(more, w)
    ensures P2Tail(OpText(op, gap, y)) == Ok([(op, e)] + more, w)
  {
    OpTextStart(op, gap, y);
    OperatorOf(op, gap + y);
    AfterOperator(gap, y);
    P2TailTake(OpText(op, gap, y), op, gap + y, e, z, more, w);
  }

  /** A `*` or `/` pair is left alone by the loop of `exp_p2`. */
  lemma MulSkipsAdd(op: Operator, gap: string, y: string)
    requires IsMul(op) && Blanks(gap)
    ensures P2Tail(OpText(op, gap, y)) == Ok([], OpText(op, gap, y))
  {
    OpTextStart(op, gap, y);
    OperatorOf(op, gap + y);
    P2TailNone(OpText(op, gap, y));
  }

  /** Without an opening parenthesis an operand is a literal. */
  lemma P0OfValue(s: string, v: real, rest: string)
    requires s == [] || s[0] != '('
    requires ParseValue(s) == Ok(v, rest)
    ensures P0(s) == Ok(Value(v), rest)
  {
  }

  /** A run of digits alone is read as its natural number. */
  lemma ParseValueOfDigits(ds: string, rest: string)
    requires ds != [] && AllDigits(ds)
    requires EndsLiteral(rest, false)
    ensures ParseValue(ds + rest) == Ok(NatValue(ds) as real, rest)
  {
    ParseValueOfLiteral("", ds, false, "", rest);
    assert UnsignedText(ds, false, "") == ds;
    assert "" + ds == ds;
  }

  /** A natural number literal is a whole operand. */
  lemma P0OfLit(n: nat, rest: string)
    requires EndsLiteral(rest, false)
    ensures P0(NatText(n) + rest) == Ok(Value(n as real), rest)
  {
    var ds := NatText(n);
    assert (ds + rest)[0] == ds[0];
    ParseValueOfDigits(ds, rest);
    NatTextValue(n);
    P0OfValue(ds + rest, n as real, rest);
  }

  /** A parenthesised expression is a whole operand. */
  lemma P0OfParen(x: string, e: Expression, rest: string)
    requires x != [] && !IsBlank(x[0])
    requires P2(x) == Ok(e, ")" + rest)
    ensures P0("(" + x) == Ok(e, rest)
  {
    assert ("(" + x)[1..] == x;
    Space0Keeps(x);
    Space0Keeps(")" + rest);
  }

  lemma Single(pair: (Operator, Expression))
    ensures [pair] + [] == [pair]
  {
  }

  lemma FromIterOne(l: Expression, op: Operator, r: Expression)
    ensures FromIter(l, [(op, r)]) == Operation(op, l, r)
  {
    FromIterSnoc(l, [], op, r);
    assert [] + [(op, r)] == [(op, r)];
  }

  lemma MulPairTail(op: Operator, gap: string, y: string, r: Expression, stop: string)
    requires IsMul(op) && Blanks(gap) && Stops(stop)
    requires y != [] && !IsBlank(y[0])
    requires P0(y) == Ok(r, stop)
    ensures P1Tail(OpText(op, gap, y)) == Ok([(op, r)], stop)
  {
    TailsStop(stop);
    MulStep(op, gap, y, r, stop, [], stop);
    Single((op, r));
  }

  /** `l * r` or `l / r`, then ')'. */
  lemma P2OfMulPair(x: string, l: Expression, op: Operator, gap: string, y: string, r: Expression, rest: string)
    requires IsMul(op) && Blanks(gap)
    requires y != [] && !IsBlank(y[0])
    requires P0(x) == Ok(l, OpText(op, gap, y))
    requires P0(y) == Ok(r, ")" + rest)
    ensures P2(x) == Ok(Operation(op, l, r), ")" + rest)
  {
    var stop := ")" + rest;
    ParenStops(rest);
    TailsStop(stop);
    MulPairTail(op, gap, y, r, stop);
    P1Unfold(x);
    FromIterOne(l, op, r);
    assert P1(x) == Ok(Operation(op, l, r), stop);
    P2Unfold(x);
  }

  /** `l + r` or `l - r`, then ')'. */
  lemma P2OfAddPair(x: string, l: Expression, op: Operator, gap: string, y: string, r: Expression, rest: string)
    requires !IsMul(op) && Blanks(gap)
    requires y != [] && !IsBlank(y[0])
    requires P0(x) == Ok(l, OpText(op, gap, y))
    requires P0(y) == Ok(r, ")" + rest)
    ensures P2(x) == Ok(Operation(op, l, r), ")" + rest)
  {
    ParenStops(rest);
    TailsStop(")" + rest);
    P1Unfold(y);
    assert P1(y) == Ok(r, ")" + rest);
    AddSkipsMul(op, gap, y);
    P1Unfold(x);
    assert P1(x) == Ok(l, OpText(op, gap, y));
    AddStep(op, gap, y, r, ")" + rest, [], ")" + rest);
    Single((op, r));
    FromIterOne(l, op, r);
    P2Unfold(x);
  }

  /** Operand, operator, operand, then ')': one operation whatever the level. */
  lemma P2OfPair(x: string, l: Expression, op: Operator, gap: string, y: string, r: Expression, rest: string)
    requires Blanks(gap)
    requires y != [] && !IsBlank(y[0])
    requires P0(x) == Ok(l, OpText(op, gap, y))
    requires P0(y) == Ok(r, ")" + rest)
    ensures P2(x) == Ok(Operation(op, l, r), ")" + rest)
  {
    if IsMul(op) {
      P2OfMulPair(x, l, op, gap, y, r, rest);
    } else {
      P2OfAddPair(x, l, op, gap, y, r, rest);
    }
  }

  /** Every printed term reads back as a whole operand. */
  lemma {:induction false} P0Print(t: Term, gap: string, rest: string)
    requires Blanks(gap) && EndsLiteral(rest, false)
    ensures P0(PrintThen(t, gap, rest)) == Ok(ToExpression(t), rest)
    decreases t
  {
    match t
    case Lit(n) =>
      P0OfLit(n, rest);
    case Op(op, l, r) =>
      var y := PrintThen(r, gap, ")" + rest);
      var a := OpText(op, gap, y);
      var x := PrintThen(l, gap, a);
      P0Print(r, gap, ")" + rest);
      OpTextStart(op, gap, y);
      P0Print(l, gap, a);
      PrintStart(r, gap, ")" + rest);
      P2OfPair(x, ToExpression(l), op, gap, y, ToExpression(r), rest);
      PrintStart(l, gap, a);
      P0OfParen(x, ToExpression(t), rest);
  }

  /** Printing and parsing are inverse: the printed text of any term, with or
    * without blanks around the operators, parses back to that term, and the
    * parse stops where the expression ends. */
  lemma ParsePrint(t: Term, gap: string, stop: string)
    requires Blanks(gap) && Stops(stop)
    ensures Parse(PrintThen(t, gap, stop)) == Ok(ToExpression(t), stop)
  {
    P0Print(t, gap, stop);
    TailsStop(stop);
    P1Unfold(PrintThen(t, gap, stop));
    P2Unfold(PrintThen(t, gap, stop));
  }

  /** The number a term stands for, computed on the term itself. */
  function TermValue(t: Term): real {
    match t
    case Lit(n) => n as real
    case Op(op, l, r) => Apply(op, TermValue(l), TermValue(r))
  }

  /** Evaluating the expression a term is read as gives the term's own value. */
  lemma {:induction false} EvaluateTerm(t: Term)
    ensures Evaluate(ToExpression(t)) == TermValue(t)
  {
    match t
    case Lit(n) =>
    case Op(op, l, r) =>
      EvaluateTerm(l);
      EvaluateTerm(r);
  }

  /** A literal followed by what ends an expression is a whole expression:
    * the leaf holding the number the literal denotes. */
  lemma ParseLiteral(sign: string, intPart: string, dot: bool, fracPart: string, stop: string)
    requires sign == "" || sign == "-" || sign == "+"
    requires AllDigits(intPart) && AllDigits(fracPart)
    requires intPart != [] || (dot && fracPart != [])
    requires !dot ==> fracPart == []
    requires Stops(stop)
    ensures Parse(sign + UnsignedText(intPart, dot, fracPart) + stop) ==
              Ok(Value(LiteralValue(sign == "-", intPart, dot, fracPart)), stop)
  {
    var s := sign + UnsignedText(intPart, dot, fracPart) + stop;
    var v := LiteralValue(sign == "-", intPart, dot, fracPart);
    assert ParseValue(s) == Ok(v, stop) by {
      ParseValueOfLiteral(sign, intPart, dot, fracPart, stop);
    }
    assert s[0] != '(' by {
      UnsignedStart(intPart, dot, fracPart);
      if sign == "" {
        assert s[0] == UnsignedText(intPart, dot, fracPart)[0];
      }
    }
    P0OfValue(s, v, stop);
    TailsStop(stop);
    P1Unfold(s);
    P2Unfold(s);
  }

  lemma FromIterTwo(a: Expression, op1: Operator, b: Expression, op2: Operator, c: Expression)
    ensures FromIter(a, [(op1, b)] + [(op2, c)]) == Operation(op2, Operation(op1, a, b), c)
  {
    FromIterSnoc(a, [(op1, b)], op2, c);
    FromIterOne(a, op1, b);
  }

  /** `a op1 b op2 c` with both operators of the same level, or a tighter
    * first one: grouped to the left. */
  lemma MulThenMul(x: string, a: Expression, op1: Operator, gap: string, y: string, b: Expression,
                   op2: Operator, z: string, c: Expression, stop: string)
    requires IsMul(op1) && IsMul(op2) && Blanks(gap) && Stops(stop)
    requires y != [] && !IsBlank(y[0]) && z != [] && !IsBlank(z[0])
    requires P0(x) == Ok(a, OpText(op1, gap, y))
    requires P0(y) == Ok(b, OpText(op2, gap, z))
    requires P0(z) == Ok(c, stop)
    ensures P2(x) == Ok(Operation(op2, Operation(op1, a, b), c), stop)
  {
    TailsStop(stop);
    MulStep(op2, gap, z, c, stop, [], stop);
    Single((op2, c));
    MulStep(op1, gap, y, b, OpText(op2, gap, z), [(op2, c)], stop);
    P1Unfold(x);
    FromIterTwo(a, op1, b, op2, c);
    P2Unfold(x);
  }

  lemma MulThenAdd(x: string, a: Expression, op1: Operator, gap: string, y: string, b: Expression,
                   op2: Operator, z: string, c: Expression, stop: string)
    requires IsMul(op1) && !IsMul(op2) && Blanks(gap) && Stops(stop)
    requires y != [] && !IsBlank(y[0]) && z != [] && !IsBlank(z[0])
    requires P0(x) == Ok(a, OpText(op1, gap, y))
    requires P0(y) == Ok(b, OpText(op2, gap, z))
    requires P0(z) == Ok(c, stop)
    ensures P2(x) == Ok(Operation(op2, Operation(op1, a, b), c), stop)
  {
    var t2 := OpText(op2, gap, z);
    TailsStop(stop);
    AddSkipsMul(op2, gap, z);
    MulStep(op1, gap, y, b, t2, [], t2);
    Single((op1, b));
    P1Unfold(x);
    FromIterOne(a, op1, b);
    assert P1(x) == Ok(Operation(op1, a, b), t2);
    P1Unfold(z);
    AddStep(op2, gap, z, c, stop, [], stop);
    Single((op2, c));
    P2Unfold(x);
    FromIterOne(Operation(op1, a, b), op2, c);
  }

  /** `a + b * c`: the tighter operator groups first. */
  lemma AddThenMul(x: string, a: Expression, op1: Operator, gap: string, y: string, b: Expression,
                   op2: Operator, z: string, c: Expression, stop: string)
    requires !IsMul(op1) && IsMul(op2) && Blanks(gap) && Stops(stop)
    requires y != [] && !IsBlank(y[0]) && z != [] && !IsBlank(z[0])
    requires P0(x) == Ok(a, OpText(op1, gap, y))
    requires P0(y) == Ok(b, OpText(op2, gap, z))
    requires P0(z) == Ok(c, stop)
    ensures P2(x) == Ok(Operation(op1, a, Operation(op2, b, c)), stop)
  {
    TailsStop(stop);
    AddSkipsMul(op1, gap, y);
    P1Unfold(x);
    assert P1(x) == Ok(a, OpText(op1, gap, y));
    MulStep(op2, gap, z, c, stop, [], stop);
    Single((op2, c));
    P1Unfold(y);
    FromIterOne(b, op2, c);
    assert P1(y) == Ok(Operation(op2, b, c), stop);
    AddStep(op1, gap, y, Operation(op2, b, c), stop, [], stop);
    Single((op1, Operation(op2, b, c)));
    P2Unfold(x);
    FromIterOne(a, op1, Operation(op2, b, c));
  }

  lemma AddThenAdd(x: string, a: Expression, op1: Operator, gap: string, y: string, b: Expression,
                   op2: Operator, z: string, c: Expression, stop: string)
    requires !IsMul(op1) && !IsMul(op2) && Blanks(gap) && Stops(stop)
    requires y != [] && !IsBlank(y[0]) && z != [] && !IsBlank(z[0])
    requires P0(x) == Ok(a, OpText(op1, gap, y))
    requires P0(y) == Ok(b, OpText(op2, gap, z))
    requires P0(z) == Ok(c, stop)
    ensures P2(x) == Ok(Operation(op2, Operation(op1, a, b), c), stop)
  {
    var t2 := OpText(op2, gap, z);
    TailsStop(stop);
    AddSkipsMul(op1, gap, y);
    P1Unfold(x);
    assert P1(x) == Ok(a, OpText(op1, gap, y));
    AddSkipsMul(op2, gap, z);
    P1Unfold(y);
    assert P1(y) == Ok(b, t2);
    P1Unfold(z);
    assert P1(z) == Ok(c, stop);
    AddStep(op2, gap, z, c, stop, [], stop);
    Single((op2, c));
    AddStep(op1, gap, y, b, t2, [(op2, c)], stop);
    P2Unfold(x);
    FromIterTwo(a, op1, b, op2, c);
  }

  /** How `a op1 b op2 c` groups: `*` and `/` bind tighter than `+` and
    * `-`, and operators of one level group to the left. */
  function Grouped(a: Expression, op1: Operator, b: Expression, op2: Operator, c: Expression): Expression {
    if !IsMul(op1) && IsMul(op2) then Operation(op1, a, Operation(op2, b, c))
    else Operation(op2, Operation(op1, a, b), c)
  }

  lemma ThreeOperands(x: string, a: Expression, op1: Operator, gap: string, y: string, b: Expression,
                      op2: Operator, z: string, c: Expression, stop: string)
    requires Blanks(gap) && Stops(stop)
    requires y != [] && !IsBlank(y[0]) && z != [] && !IsBlank(z[0])
    requires P0(x) == Ok(a, OpText(op1, gap, y))
    requires P0(y) == Ok(b, OpText(op2, gap, z))
    requires P0(z) == Ok(c, stop)
    ensures P2(x) == Ok(Grouped(a, op1, b, op2, c), stop)
  {
    if IsMul(op1) && IsMul(op2) {
      MulThenMul(x, a, op1, gap, y, b, op2, z, c, stop);
    } else if IsMul(op1) {
      MulThenAdd(x, a, op1, gap, y, b, op2, z, c, stop);
    } else if IsMul(op2) {
      AddThenMul(x, a, op1, gap, y, b, op2, z, c, stop);
    } else {
      AddThenAdd(x, a, op1, gap, y, b, op2, z, c, stop);
    }
  }

  /** Operator precedence and associativity, for any three printed operands. */
  lemma Precedence(a: Term, op1: Operator, b: Term, op2: Operator, c: Term, gap: string, stop: string)
    requires Blanks(gap) && Stops(stop)
    ensures P2(PrintThen(a, gap, OpText(op1, gap, PrintThen(b, gap, OpText(op2, gap, PrintThen(c, gap, stop)))))) ==
              Ok(Grouped(ToExpression(a), op1, ToExpression(b), op2, ToExpression(c)), stop)
  {
    var z := PrintThen(c, gap, stop);
    var t2 := OpText(op2, gap, z);
    var y := PrintThen(b, gap, t2);
    var t1 := OpText(op1, gap, y);
    var x := PrintThen(a, gap, t1);
    P0Print(c, gap, stop);
    OpTextStart(op2, gap, z);
    P0Print(b, gap, t2);
    OpTextStart(op1, gap, y);
    P0Print(a, gap, t1);
    PrintStart(c, gap, stop);
    PrintStart(b, gap, t2);
    ThreeOperands(x, ToExpression(a), op1, gap, y, ToExpression(b), op2, z, ToExpression(c), stop);
  }
}
