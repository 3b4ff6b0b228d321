/**
 * The decimal number type `D` (rust_decimal's `Decimal` in the library build)
 * as an exact rational: parsing from text, and the four operations the
 * expression evaluator applies.  Rounding, overflow and scale are not part of
 * this model.
 */
module Decimals {
  import opened Nom

  /** The value of the fractional digits d1 d2 ... as the number 0.d1d2... */
  function FracValue(ds: string): (v: real)
    requires AllDigits(ds)
    ensures 0.0 <= v < 1.0
  {
    if ds == [] then 0.0 else ((DigitValue(ds[0]) as real) + FracValue(ds[1..])) / 10.0
  }

  function Signed(negative: bool, v: real): real {
    if negative then -v else v
  }

  /** The text a decimal literal is written as: an optional '-', an integer
    * part, and, when `dot` holds, '.' and a fraction part. */
  function DecimalText(negative: bool, intPart: string, dot: bool, fracPart: string): string {
    (if negative then "-" else "") + UnsignedText(intPart, dot, fracPart)
  }

  function UnsignedText(intPart: string, dot: bool, fracPart: string): string {
    intPart + (if dot then "." + fracPart else "")
  }

  /** The number a literal written as `DecimalText(negative, intPart, dot, fracPart)` denotes. */
  function LiteralValue(negative: bool, intPart: string, dot: bool, fracPart: string): real
    requires AllDigits(intPart) && AllDigits(fracPart)
  {
    Signed(negative, NatValue(intPart) as real + (if dot then FracValue(fracPart) else 0.0))
  }

  /** `D::from_str` on text made of digits, '-' and '.', the only characters
    * any scanner of the grammar hands to it: an optional leading '-', then an
    * unsigned literal. */
  function FromStr(s: string): (r: Option<real>)
    ensures r.Some? ==> s != [] && forall i :: 0 <= i < |s| ==> IsDigit(s[i]) || s[i] == '.' || s[i] == '-'
    ensures s != [] && AllDigits(s) ==> r == Some(NatValue(s) as real)
  {
    if s != [] && s[0] == '-' then
      match Unsigned(s[1..]) {
        case Some(v) => Some(-v)
        case None => None
      }
    else Unsigned(s)
  }

  /** Digits, optionally '.' and more digits, with at least one digit overall. */
  function Unsigned(body: string): (r: Option<real>)
    ensures r.Some? ==> body != [] && forall i :: 0 <= i < |body| ==> IsDigit(body[i]) || body[i] == '.'
    ensures body != [] && AllDigits(body) ==> r == Some(NatValue(body) as real)
  {
    var n := SpanOf(IsDigit, body);
    var intPart, after := body[..n], body[n..];
    assert body != [] && AllDigits(body) ==> intPart == body by {
      if body != [] && AllDigits(body) { SpanOfAll(IsDigit, body); }
    }
    if after == [] then
      if n == 0 then None else Some(NatValue(intPart) as real)
    else if after[0] == '.' && AllDigits(after[1..]) && (n > 0 || |after| > 1) then
      Some(NatValue(intPart) as real + FracValue(after[1..]))
    else None
  }

  lemma UnsignedParts(intPart: string, dot: bool, fracPart: string)
    requires AllDigits(intPart) && AllDigits(fracPart)
    requires intPart != [] || (dot && fracPart != [])
    ensures Unsigned(UnsignedText(intPart, dot, fracPart)) == Some(LiteralValue(false, intPart, dot, fracPart))
  {
    if dot {
      var tail := "." + fracPart;
      var body := intPart + tail;
      assert UnsignedText(intPart, dot, fracPart) == body;
      SpanOfPrefix(IsDigit, intPart, tail);
      assert body[..|intPart|] == intPart;
      assert body[|intPart|..] == tail;
      assert tail[1..] == fracPart;
    } else {
      assert UnsignedText(intPart, dot, fracPart) == intPart;
      SpanOfAll(IsDigit, intPart);
    }
  }

  /** The sign is read before the unsigned part. */
  lemma FromStrSign(body: string)
    requires body != [] && body[0] != '-'
    ensures FromStr(body) == Unsigned(body)
    ensures FromStr("-" + body) == (if Unsigned(body).Some? then Some(-Unsigned(body).value) else None)
  {
    assert ("-" + body)[1..] == body;
  }

  /** Every literal written as sign, digits, '.', digits reads back as the
    * number it denotes, provided it has at least one digit. */
  lemma FromStrDecimalText(negative: bool, intPart: string, dot: bool, fracPart: string)
    requires AllDigits(intPart) && AllDigits(fracPart)
    requires intPart != [] || (dot && fracPart != [])
    ensures FromStr(DecimalText(negative, intPart, dot, fracPart)) == Some(LiteralValue(negative, intPart, dot, fracPart))
  {
    var body := UnsignedText(intPart, dot, fracPart);
    var v := LiteralValue(false, intPart, dot, fracPart);
    UnsignedParts(intPart, dot, fracPart);
    UnsignedStart(intPart, dot, fracPart);
    FromStrSign(body);
    if negative {
      assert DecimalText(negative, intPart, dot, fracPart) == "-" + body;
      assert LiteralValue(negative, intPart, dot, fracPart) == -v;
    } else {
      assert DecimalText(negative, intPart, dot, fracPart) == body;
    }
  }

  lemma UnsignedStart(intPart: string, dot: bool, fracPart: string)
    requires intPart != [] || dot
    requires AllDigits(intPart)
    ensures var body := UnsignedText(intPart, dot, fracPart); body != [] && body[0] != '-'
  {
    var body := UnsignedText(intPart, dot, fracPart);
    if intPart != [] { assert body[0] == intPart[0]; } else { assert body[0] == '.'; }
  }

  /** Text with no digit at all never parses, nor does text with two dots. */
  lemma FromStrNeedsDigit(s: string)
    requires forall i :: 0 <= i < |s| ==> !IsDigit(s[i])
    ensures FromStr(s).None?
  {
  }

  lemma FromStrTwoDots(intPart: string, middle: string, rest: string)
    requires AllDigits(intPart) && AllDigits(middle)
    ensures FromStr(intPart + "." + middle + "." + rest).None?
  {
    var s := intPart + "." + middle + "." + rest;
    var after := "." + middle + "." + rest;
    TwoDotsParts(intPart, middle, rest);
    SecondDot(middle, rest);
  }

  lemma TwoDotsParts(intPart: string, middle: string, rest: string)
    requires AllDigits(intPart)
    ensures var s := intPart + "." + middle + "." + rest;
            s != [] && s[0] != '-' && SpanOf(IsDigit, s) == |intPart| &&
            s[|intPart|..] == "." + middle + "." + rest
  {
    var s := intPart + "." + middle + "." + rest;
    var after := "." + middle + "." + rest;
    assert s == intPart + after;
    SpanOfPrefix(IsDigit, intPart, after);
    if intPart != [] {
      assert s[0] == intPart[0];
    }
  }

  lemma SecondDot(middle: string, rest: string)
    requires AllDigits(middle)
    ensures var after := "." + middle + "." + rest;
            after[0] == '.' && !AllDigits(after[1..])
  {
    var after := "." + middle + "." + rest;
    assert after[1..][|middle|] == '.';
  }

  /** The value that division by zero takes in this model; the decimal type
    * itself panics there, and the source performs no check beforehand. */
  const DIV_BY_ZERO: real := 0.0

  function Div(a: real, b: real): (q: real)
    ensures b != 0.0 ==> q * b == a
  {
    if b == 0.0 then DIV_BY_ZERO else a / b
  }
}
