/**
 * The parser-combinator vocabulary shared by every scanner of the ledger
 * grammar: the three-way result of a nom parser, character classes, and the
 * small complete-input primitives (`space0`, `space1`, `tag`, `char`,
 * `digit1`, `line_ending`, `not_line_ending`, `eof`) the grammar is built from.
 *
 * Character classes are ASCII: the Unicode tables behind `char::is_alphanumeric`
 * and friends are not part of this model.
 */
module Nom {

  /** Outcome of a nom parser: a value and the unconsumed input, a recoverable
    * error (`Err::Error`, on which `alt`, `opt` and `many0` move on) or a
    * committed failure (`Err::Failure`, which they propagate). */
  datatype Res<T> = Ok(value: T, rest: string) | Error | Failure

  datatype Option<T> = None | Some(value: T)

  /** `rest` is what remains of `s` after consuming a prefix of it. */
  predicate IsSuffix(rest: string, s: string) {
    |rest| <= |s| && s[|s| - |rest|..] == rest
  }

  /** nom's `cut`: a recoverable error becomes a committed failure. */
  function Cut<T>(r: Res<T>): (c: Res<T>)
    ensures c.Error? == false
    ensures r.Ok? ==> c == r
    ensures c.Failure? <==> !r.Ok?
  {
    if r.Error? then Failure else r
  }

  // ---------------------------------------------------------------- classes

  predicate IsBlank(c: char) { c == ' ' || c == '\t' }
  predicate IsDigit(c: char) { '0' <= c <= '9' }
  predicate IsAsciiUpper(c: char) { 'A' <= c <= 'Z' }
  predicate IsAsciiLower(c: char) { 'a' <= c <= 'z' }
  predicate IsAlphanumeric(c: char) { IsDigit(c) || IsAsciiUpper(c) || IsAsciiLower(c) }
  /** space, tab, line feed, vertical tab, form feed, carriage return */
  predicate IsWhitespace(c: char) { c == ' ' || '\t' <= c <= '\r' }
  predicate IsLineBreak(c: char) { c == '\n' || c == '\r' }
  predicate NotLineBreak(c: char) { !IsLineBreak(c) }

  predicate AllDigits(s: string) { forall i :: 0 <= i < |s| ==> IsDigit(s[i]) }

  /** Length of the longest prefix of `s` whose characters all satisfy `p`. */
  function SpanOf(p: char -> bool, s: string): (n: nat)
    ensures n <= |s|
    ensures forall i :: 0 <= i < n ==> p(s[i])
    ensures n < |s| ==> !p(s[n])
  {
    if s == [] || !p(s[0]) then 0 else 1 + SpanOf(p, s[1..])
  }

  lemma {:induction false} SpanOfUnique(p: char -> bool, s: string, n: nat)
    requires n <= |s|
    requires forall i :: 0 <= i < n ==> p(s[i])
    requires n < |s| ==> !p(s[n])
    ensures SpanOf(p, s) == n
  {
    if n > 0 {
      SpanOfUnique(p, s[1..], n - 1);
    }
  }

  lemma SpanOfAll(p: char -> bool, s: string)
    requires forall i :: 0 <= i < |s| ==> p(s[i])
    ensures SpanOf(p, s) == |s|
  {
    SpanOfUnique(p, s, |s|);
  }

  /** The span of `p` over `a + b` when all of `a` satisfies `p`. */
  lemma SpanOfPrefix(p: char -> bool, a: string, b: string)
    requires forall i :: 0 <= i < |a| ==> p(a[i])
    ensures SpanOf(p, a + b) == |a| + SpanOf(p, b)
  {
    var n := |a| + SpanOf(p, b);
    var s := a + b;
    forall i | 0 <= i < n ensures p(s[i]) {
      if i >= |a| { assert s[i] == b[i - |a|]; }
    }
    if n < |s| { assert s[n] == b[SpanOf(p, b)]; }
    SpanOfUnique(p, s, n);
  }

  // ------------------------------------------------------------- primitives

  /** `take_while`: the longest prefix satisfying `p`; never fails. */
  function TakeWhile(p: char -> bool, s: string): (r: Res<string>)
    ensures r.Ok? && r.value + r.rest == s
    ensures forall i :: 0 <= i < |r.value| ==> p(r.value[i])
    ensures r.rest == [] || !p(r.rest[0])
  {
    var n := SpanOf(p, s);
    Ok(s[..n], s[n..])
  }

  /** `take_while1`: as `TakeWhile`, but an empty match is an error. */
  function TakeWhile1(p: char -> bool, s: string): (r: Res<string>)
    ensures r.Ok? <==> s != [] && p(s[0])
    ensures r.Ok? ==> r.value != [] && r.value + r.rest == s && (r.rest == [] || !p(r.rest[0]))
    ensures r.Ok? ==> forall i :: 0 <= i < |r.value| ==> p(r.value[i])
  {
    var n := SpanOf(p, s);
    if n == 0 then Error else Ok(s[..n], s[n..])
  }

  /** `space0`: skips blanks and returns what follows. */
  function Space0(s: string): (rest: string)
    ensures IsSuffix(rest, s)
    ensures rest == [] || !IsBlank(rest[0])
    ensures forall i :: 0 <= i < |s| - |rest| ==> IsBlank(s[i])
  {
    s[SpanOf(IsBlank, s)..]
  }

  /** `space0` skips exactly a run of blanks. */
  lemma Space0OfBlanks(gap: string, x: string)
    requires forall i :: 0 <= i < |gap| ==> IsBlank(gap[i])
    requires x == [] || !IsBlank(x[0])
    ensures Space0(gap + x) == x
  {
    SpanOfPrefix(IsBlank, gap, x);
    assert SpanOf(IsBlank, x) == 0;
    assert (gap + x)[|gap|..] == x;
  }

  /** complete `space1`: at least one blank. */
  function Space1(s: string): (r: Res<string>)
    ensures r.Ok? <==> s != [] && IsBlank(s[0])
    ensures r.Ok? ==> r.rest == Space0(s) && r.value + r.rest == s
    ensures !r.Failure?
  {
    TakeWhile1(IsBlank, s)
  }

  /** streaming `space1`: when the input runs out while (or before) blanks
    * are read, nom reports `Incomplete`, which behaves like a failure. */
  function Space1Streaming(s: string): (r: Res<string>)
    ensures r.Ok? <==> s != [] && IsBlank(s[0]) && Space0(s) != []
    ensures r.Error? <==> s != [] && !IsBlank(s[0])
    ensures r.Ok? ==> r.rest == Space0(s)
  {
    var n := SpanOf(IsBlank, s);
    if s == [] || n == |s| then Failure
    else if n == 0 then Error
    else Ok(s[..n], s[n..])
  }

  /** A non-empty run of blanks is exactly what `space1` reads; the streaming
    * version needs something after the run. */
  lemma Space1OfBlanks(gap: string, t: string)
    requires gap != [] && forall i :: 0 <= i < |gap| ==> IsBlank(gap[i])
    requires t == [] || !IsBlank(t[0])
    ensures Space1(gap + t) == Ok(gap, t)
    ensures t != [] ==> Space1Streaming(gap + t) == Ok(gap, t)
    ensures t == [] ==> Space1Streaming(gap + t).Failure?
  {
    Space0OfBlanks(gap, t);
    assert (gap + t)[0] == gap[0];
    SpanOfPrefix(IsBlank, gap, t);
    assert (gap + t)[..|gap|] == gap;
  }

  /** `tag(t)`: the literal text `t`. */
  function Tag(t: string, s: string): (r: Res<string>)
    ensures r.Ok? <==> |t| <= |s| && s[..|t|] == t
    ensures r.Ok? ==> r.value == t && s == t + r.rest
    ensures !r.Failure?
  {
    if |t| <= |s| && s[..|t|] == t then Ok(t, s[|t|..]) else Error
  }

  /** `char(c)`. */
  function Char(c: char, s: string): (r: Res<char>)
    ensures r.Ok? <==> s != [] && s[0] == c
    ensures r.Ok? ==> r.value == c && r.rest == s[1..]
    ensures !r.Failure?
  {
    if s != [] && s[0] == c then Ok(c, s[1..]) else Error
  }

  /** `take(n)`: exactly `n` characters. */
  function Take(n: nat, s: string): (r: Res<string>)
    ensures r.Ok? <==> n <= |s|
    ensures r.Ok? ==> r.value == s[..n] && r.rest == s[n..]
    ensures !r.Failure?
  {
    if n <= |s| then Ok(s[..n], s[n..]) else Error
  }

  /** `digit1`. */
  function Digit1(s: string): (r: Res<string>)
    ensures r.Ok? <==> s != [] && IsDigit(s[0])
    ensures r.Ok? ==> r.value != [] && AllDigits(r.value) && r.value + r.rest == s
    ensures r.Ok? ==> r.rest == [] || !IsDigit(r.rest[0])
    ensures !r.Failure?
  {
    TakeWhile1(IsDigit, s)
  }

  /** A string split after its first character and put back together. */
  lemma Reassemble(s: string, c: char, v: string, r: string, j: string, q: string)
    requires s != [] && s[0] == c && s[1..] == v + r && r == j + q
    ensures s == [c] + v + j + q
  {
    assert s == [s[0]] + s[1..];
  }

  /** A non-empty sequence is its head followed by its tail. */
  lemma HeadTail<T>(s: seq<T>)
    requires s != []
    ensures [s[0]] + s[1..] == s
  {
  }

  lemma ConcatAssoc(a: string, b: string, c: string)
    ensures a + (b + c) == (a + b) + c
  {
  }

  lemma DropPrefix(a: string, b: string)
    ensures (a + b)[|a|..] == b
  {
  }

  lemma DropTwice(s: string, i: nat, j: nat)
    requires i + j <= |s|
    ensures s[i..][j..] == s[i + j..]
  {
  }

  /** The converse of `Reassemble`. */
  lemma Disassemble(c: char, v: string, j: string, q: string)
    ensures ([c] + v + j + q)[0] == c && ([c] + v + j + q)[1..] == v + (j + q)
  {
    var s := [c] + v + j + q;
    assert s == [c] + (v + (j + q));
  }

  /** `take_while1` on a maximal run takes exactly that run. */
  lemma TakeWhile1OfRun(p: char -> bool, run: string, rest: string)
    requires run != [] && forall i :: 0 <= i < |run| ==> p(run[i])
    requires rest == [] || !p(rest[0])
    ensures TakeWhile1(p, run + rest) == Ok(run, rest)
  {
    var s := run + rest;
    SpanOfPrefix(p, run, rest);
    assert s[..|run|] == run && s[|run|..] == rest;
  }

  /** `digit1` on a maximal digit run takes exactly that run. */
  lemma Digit1OfRun(ds: string, rest: string)
    requires ds != [] && AllDigits(ds)
    requires rest == [] || !IsDigit(rest[0])
    ensures Digit1(ds + rest) == Ok(ds, rest)
  {
    TakeWhile1OfRun(IsDigit, ds, rest);
  }

  /** `line_ending`: "\n" or "\r\n". */
  function LineEnding(s: string): (r: Res<string>)
    ensures r.Ok? <==> |s| >= 1 && (s[0] == '\n' || (|s| >= 2 && s[0] == '\r' && s[1] == '\n'))
    ensures r.Ok? ==> (r.value == "\n" || r.value == "\r\n") && s == r.value + r.rest
    ensures !r.Failure?
  {
    if |s| >= 1 && s[0] == '\n' then Ok("\n", s[1..])
    else if |s| >= 2 && s[0] == '\r' && s[1] == '\n' then Ok("\r\n", s[2..])
    else Error
  }

  /** The first line break of `s` is a '\r' that does not start "\r\n". */
  predicate LoneCarriageReturn(s: string) {
    s != [] && if s[0] == '\r' then |s| == 1 || s[1] != '\n'
               else s[0] != '\n' && LoneCarriageReturn(s[1..])
  }

  lemma {:induction false} LoneCarriageReturnAt(s: string)
    ensures var n := SpanOf(NotLineBreak, s);
            LoneCarriageReturn(s) <==> n < |s| && s[n] == '\r' && !(n + 1 < |s| && s[n + 1] == '\n')
  {
    if s != [] && NotLineBreak(s[0]) {
      LoneCarriageReturnAt(s[1..]);
    }
  }

  /** `not_line_ending`: everything up to the first '\n' or '\r'; a '\r' that
    * does not start "\r\n" is an error. */
  function NotLineEnding(s: string): (r: Res<string>)
    ensures r.Ok? ==> r.value + r.rest == s && (forall i :: 0 <= i < |r.value| ==> NotLineBreak(r.value[i]))
    ensures r.Ok? ==> r.rest == [] || LineEnding(r.rest).Ok?
    ensures r.Error? <==> LoneCarriageReturn(s)
    ensures !r.Failure?
  {
    var n := SpanOf(NotLineBreak, s);
    LoneCarriageReturnAt(s);
    if n < |s| && s[n] == '\r' && !(n + 1 < |s| && s[n + 1] == '\n') then Error
    else
      SplitAt(s, n);
      Ok(s[..n], s[n..])
  }

  /** The text before position `n` and the text from it make up the whole. */
  lemma SplitAt<T>(s: seq<T>, n: nat)
    requires n <= |s|
    ensures s[..n] + s[n..] == s
    ensures forall i :: 0 <= i < n ==> s[..n][i] == s[i]
  {
  }

  /** A line's text is taken up to the line ending, which is left in place. */
  lemma NotLineEndingOfLine(text: string, rest: string)
    requires forall i :: 0 <= i < |text| ==> NotLineBreak(text[i])
    requires rest == [] || LineEnding(rest).Ok?
    ensures NotLineEnding(text + rest) == Ok(text, rest)
  {
    var s := text + rest;
    SpanOfPrefix(NotLineBreak, text, rest);
    assert SpanOf(NotLineBreak, rest) == 0;
    assert s[..|text|] == text && s[|text|..] == rest;
  }

  /** `eof`. */
  function Eof(s: string): (r: Res<string>)
    ensures r.Ok? <==> s == []
    ensures !r.Failure?
  {
    if s == [] then Ok(s, s) else Error
  }

  /** `tuple((digit1, char('-'), digit1, char('-'), digit1))`, the shape
    * of a date; its value is the text it spans. */
  function DateLike(s: string): (r: Res<string>)
    ensures !r.Failure?
    ensures r.Ok? ==> s == r.value + r.rest && s != [] && IsDigit(s[0])
  {
    var a := SpanOf(IsDigit, s);
    if a == 0 || a == |s| || s[a] != '-' then Error else
    var t := s[a + 1..];
    var b := SpanOf(IsDigit, t);
    if b == 0 || b == |t| || t[b] != '-' then Error else
    var u := t[b + 1..];
    var c := SpanOf(IsDigit, u);
    if c == 0 then Error else
    DropTwice(s, a + 1, b + 1);
    DropTwice(s, a + b + 2, c);
    SplitAt(s, a + b + c + 2);
    Ok(s[..a + b + c + 2], u[c..])
  }

  /** `all_consuming`: success only when nothing is left. */
  function AllConsuming<T>(r: Res<T>): (q: Res<T>)
    ensures q.Ok? <==> r.Ok? && r.rest == []
    ensures q.Failure? <==> r.Failure?
    ensures q.Ok? ==> q == r
  {
    if r.Ok? && r.rest != [] then Error else r
  }

  /** `alt` over a list of results: the first that is not a recoverable
    * error, or an error when all of them are. */
  function FirstSuccess<T>(rs: seq<Res<T>>): (q: Res<T>)
    ensures q.Error? <==> forall i :: 0 <= i < |rs| ==> rs[i].Error?
  {
    if rs == [] then Error else if !rs[0].Error? then rs[0] else FirstSuccess(rs[1..])
  }

  /** The alternative that wins is the first one that is not an error. */
  lemma {:induction false} FirstSuccessAt<T>(rs: seq<Res<T>>, i: nat)
    requires i < |rs| && !rs[i].Error?
    requires forall j :: 0 <= j < i ==> rs[j].Error?
    ensures FirstSuccess(rs) == rs[i]
  {
    if i > 0 {
      FirstSuccessAt(rs[1..], i - 1);
    }
  }

  /** What holds of every successful alternative holds of the one `alt`
    * returns. */
  lemma {:induction false} FirstSuccessHas<T>(rs: seq<Res<T>>, p: T -> bool)
    requires forall i :: 0 <= i < |rs| && rs[i].Ok? ==> p(rs[i].value)
    requires FirstSuccess(rs).Ok?
    ensures p(FirstSuccess(rs).value)
  {
    if rs[0].Error? {
      assert forall i :: 0 <= i < |rs[1..]| && rs[1..][i].Ok? ==> p(rs[1..][i].value) by {
        forall i | 0 <= i < |rs[1..]| && rs[1..][i].Ok? ensures p(rs[1..][i].value) {
          assert rs[1..][i] == rs[i + 1];
        }
      }
      FirstSuccessHas(rs[1..], p);
    }
  }

  /** Passes an unsuccessful result on, at another value type. */
  function Forward<T, U>(r: Res<T>): (q: Res<U>)
    requires !r.Ok?
    ensures q.Error? <==> r.Error?
    ensures q.Failure? <==> r.Failure?
  {
    if r.Error? then Error else Failure
  }

  /** Prefixes the value of a successful result. */
  function Prepend(p: string, r: Res<string>): (q: Res<string>)
    ensures q.Ok? <==> r.Ok?
    ensures q.Failure? <==> r.Failure?
    ensures r.Ok? ==> q.value == p + r.value && q.rest == r.rest
  {
    match r
    case Ok(v, rest) => Ok(p + v, rest)
    case Error => Error
    case Failure => Failure
  }

  lemma PrependPrepend(p1: string, p2: string, r: Res<string>)
    ensures Prepend(p1, Prepend(p2, r)) == Prepend(p1 + p2, r)
  {
    if r.Ok? { assert p1 + (p2 + r.value) == (p1 + p2) + r.value; }
  }

  // -------------------------------------------------------------- trimming

  /** `str::trim`. */
  function Trim(s: string): (t: string)
    ensures t == [] || (!IsWhitespace(t[0]) && !IsWhitespace(t[|t| - 1]))
    ensures exists i, j :: 0 <= i <= j <= |s| && t == s[i..j]
  {
    var i := SpanOf(IsWhitespace, s);
    var t := TrimEnd(s[i..]);
    assert t == s[i..i + |t|];
    t
  }

  function TrimEnd(s: string): (t: string)
    ensures t == [] || !IsWhitespace(t[|t| - 1])
    ensures |t| <= |s| && t == s[..|t|]
    ensures forall i :: |t| <= i < |s| ==> IsWhitespace(s[i])
  {
    if s == [] || !IsWhitespace(s[|s| - 1]) then s else TrimEnd(s[..|s| - 1])
  }

  // -------------------------------------------------------------- numerals

  function DigitValue(c: char): (d: nat)
    requires IsDigit(c)
    ensures d < 10
  {
    (c as int) - ('0' as int)
  }

  function DigitChar(d: nat): (c: char)
    requires d < 10
    ensures IsDigit(c) && DigitValue(c) == d
  {
    (('0' as int) + d) as char
  }

  /** The value of a run of decimal digits (0 for the empty run). */
  function NatValue(ds: string): nat
    requires AllDigits(ds)
  {
    if ds == [] then 0 else NatValue(ds[..|ds| - 1]) * 10 + DigitValue(ds[|ds| - 1])
  }

  function Pow10(n: nat): (p: nat)
    ensures p >= 1
  {
    if n == 0 then 1 else 10 * Pow10(n - 1)
  }

  /** `k` digits denote a number below 10^k. */
  lemma {:induction false} NatValueBound(ds: string)
    requires AllDigits(ds)
    ensures NatValue(ds) < Pow10(|ds|)
  {
    if ds != [] {
      var init := ds[..|ds| - 1];
      NatValueBound(init);
      assert NatValue(init) + 1 <= Pow10(|init|);
      assert (NatValue(init) + 1) * 10 <= Pow10(|init|) * 10;
    }
  }

  /** The decimal text of `n`, without leading zeros. */
  function NatText(n: nat): (ds: string)
    ensures ds != [] && AllDigits(ds)
  {
    if n < 10 then [DigitChar(n)] else NatText(n / 10) + [DigitChar(n % 10)]
  }

  lemma {:induction false} NatTextValue(n: nat)
    ensures NatValue(NatText(n)) == n
  {
    if n >= 10 {
      var ds := NatText(n);
      assert ds[..|ds| - 1] == NatText(n / 10);
      NatTextValue(n / 10);
    }
  }

  /** Rust's `str::parse` for an unsigned integer type whose largest value is
    * `max`: an optional '+', then at least one digit, and no overflow. */
  function ParseUnsigned(s: string, max: nat): (r: Option<nat>)
    ensures r.Some? <==> StripPlus(s) != [] && AllDigits(StripPlus(s)) && NatValue(StripPlus(s)) <= max
    ensures r.Some? ==> r.value <= max
    ensures AllDigits(s) && s != [] && NatValue(s) <= max ==> r == Some(NatValue(s))
  {
    var ds := StripPlus(s);
    if ds != [] && AllDigits(ds) && NatValue(ds) <= max then Some(NatValue(ds)) else None
  }

  function StripPlus(s: string): string {
    if s != [] && s[0] == '+' then s[1..] else s
  }

  const U8_MAX: nat := 255
  const U16_MAX: nat := 65535
}
