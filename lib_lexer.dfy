/**
 * The lexical helpers of src/lib.rs: the hand-written `string` loop (only
 * `\"` and `\\` escapes, each after a non-empty run of plain text),
 * `end_of_line`, `comment` and `line`.
 */
module LibLexer {
  import opened Nom
  import Strings

  // ------------------------------------------------------------------ string

  /** What the loop of `string` reads after the opening quote: the decoded
    * text and the input left in front of the closing quote.  A run of plain
    * text may be followed by `\"` or `\\`, after which another run is read;
    * the loop stops at the first empty run or the first run that is not
    * followed by one of the two escapes. */
  function Body(s: string): (b: (string, string))
    ensures |b.1| <= |s|
    ensures b.1 == [] || !Strings.IsPlain(b.1[0])
    ensures b.0 == [] <==> SpanOf(Strings.IsPlain, s) == 0
    decreases |s|
  {
    var n := SpanOf(Strings.IsPlain, s);
    if n == 0 then ([], s) else
    var after := s[n..];
    if IsLibEscape(after) then
      var tail := Body(after[2..]);
      (s[..n] + [after[1]] + tail.0, tail.1)
    else (s[..n], after)
  }

  /** `\"` or `\\` at the start of `s`. */
  predicate IsLibEscape(s: string) {
    |s| >= 2 && s[0] == '\\' && (s[1] == '"' || s[1] == '\\')
  }

  /** `string`: a double-quoted string, its `\"` and `\\` escapes decoded. */
  function QuotedString(s: string): (r: Res<string>)
    ensures !r.Failure?
    ensures r.Ok? ==> s != [] && s[0] == '"' && |r.rest| < |s|
  {
    if s == [] || s[0] != '"' then Error else
    var b := Body(s[1..]);
    if b.1 != [] && b.1[0] == '"' then Ok(b.0, b.1[1..]) else Error
  }

  /** The loop of `string` as the source writes it: plain runs and escapes are
    * appended to `out` in turn until a run is empty or no escape follows. */
  method ParseString(s: string) returns (r: Res<string>)
    ensures r == QuotedString(s)
  {
    if s == [] || s[0] != '"' {
      return Error;
    }
    var out := "";
    var input := s[1..];
    var part;
    part, input := NextRun(input);
    assert out + Body(part + input).0 == Body(part + input).0;
    while part != []
      invariant SpanOf(Strings.IsPlain, part + input) == |part|
      invariant Body(s[1..]).0 == out + Body(part + input).0
      invariant Body(s[1..]).1 == Body(part + input).1
      decreases |input|
    {
      BodyOfRun(part, input);
      if !IsLibEscape(input) {
        out := out + part;
        assert Body(s[1..]) == (out, input);
        break;
      }
      ConcatAssoc3(out, part, [input[1]], Body(input[2..]).0);
      out := out + part + [input[1]];
      part, input := NextRun(input[2..]);
    }
    BodyStops(part, input);
    if part == [] {
      assert out + [] == out;
    }
    assert Body(s[1..]) == (out, input);
    if input != [] && input[0] == '"' {
      r := Ok(out, input[1..]);
    } else {
      r := Error;
    }
  }

  /** `take_while` over the plain characters, split into the run and the rest. */
  method NextRun(t: string) returns (part: string, rest: string)
    ensures part + rest == t
    ensures SpanOf(Strings.IsPlain, part + rest) == |part|
  {
    var n := SpanOf(Strings.IsPlain, t);
    part, rest := t[..n], t[n..];
    assert part + rest == t;
  }

  /** One turn of the loop, seen on `Body`. */
  lemma BodyOfRun(part: string, input: string)
    requires part != []
    requires SpanOf(Strings.IsPlain, part + input) == |part|
    ensures Body(part + input) ==
      if IsLibEscape(input) then (part + [input[1]] + Body(input[2..]).0, Body(input[2..]).1)
      else (part, input)
  {
    var s := part + input;
    assert s[..|part|] == part && s[|part|..] == input;
  }

  lemma ConcatAssoc3(a: string, b: string, c: string, d: string)
    ensures a + (b + c + d) == a + b + c + d
  {
  }

  /** Where the loop stops, `Body` adds nothing more. */
  lemma BodyStops(part: string, input: string)
    requires SpanOf(Strings.IsPlain, part + input) == |part|
    ensures part == [] ==> Body(part + input) == ([], input)
  {
    if part == [] {
      assert part + input == input;
    }
  }

  predicate AllPlain(p: string) { forall i :: 0 <= i < |p| ==> Strings.IsPlain(p[i]) }

  /** Text without quotes or backslashes comes back unchanged, the closing
    * quote is consumed, and `""` is the empty string. */
  lemma PlainString(p: string, rest: string)
    requires AllPlain(p)
    ensures QuotedString("\"" + p + "\"" + rest) == Ok(p, rest)
  {
    var s := "\"" + p + "\"" + rest;
    assert s[1..] == p + ("\"" + rest);
    SpanOfPrefix(Strings.IsPlain, p, "\"" + rest);
    assert SpanOf(Strings.IsPlain, "\"" + rest) == 0;
    var t := s[1..];
    assert t[..|p|] == p && t[|p|..] == "\"" + rest;
  }

  /** After a non-empty plain run, `\"` stands for a quote and `\\` for a
    * backslash, and decoding goes on with what follows. */
  lemma EscapeAfterRun(p: string, c: char, t: string, v: string, rest: string)
    requires p != [] && AllPlain(p)
    requires c == '"' || c == '\\'
    requires QuotedString("\"" + t) == Ok(v, rest)
    ensures QuotedString("\"" + p + ['\\', c] + t) == Ok(p + [c] + v, rest)
  {
    var u := ['\\', c] + t;
    assert "\"" + p + ['\\', c] + t == "\"" + (p + u);
    QuoteThen(t);
    QuoteThen(p + u);
    RunThenEscape(p, c, t);
  }

  /** `string` on a quote and `x`: the body of `x`, if a quote ends it. */
  lemma QuoteThen(x: string)
    ensures QuotedString("\"" + x) ==
            if Body(x).1 != [] && Body(x).1[0] == '"' then Ok(Body(x).0, Body(x).1[1..]) else Error
  {
    assert ("\"" + x)[1..] == x;
  }

  /** A plain run, then an escape: the run and the escaped character, then
    * the body of what follows. */
  lemma RunThenEscape(p: string, c: char, t: string)
    requires p != [] && AllPlain(p)
    requires c == '"' || c == '\\'
    ensures Body(p + (['\\', c] + t)) == (p + [c] + Body(t).0, Body(t).1)
  {
    var u := ['\\', c] + t;
    SpanOfPrefix(Strings.IsPlain, p, u);
    assert SpanOf(Strings.IsPlain, u) == 0;
    BodyOfRun(p, u);
    assert u[2..] == t;
  }

  /** A backslash followed by anything but a quote or a backslash is an error,
    * `\n` and `\t` included. */
  lemma RejectsOtherEscape(p: string, c: char, rest: string)
    requires AllPlain(p)
    requires c != '"' && c != '\\'
    ensures QuotedString("\"" + p + ['\\', c] + rest).Error?
  {
    var s := "\"" + p + ['\\', c] + rest;
    var u := ['\\', c] + rest;
    assert s[1..] == p + u;
    SpanOfPrefix(Strings.IsPlain, p, u);
    assert SpanOf(Strings.IsPlain, u) == 0;
    if p == [] {
      assert p + u == u;
    } else {
      BodyOfRun(p, u);
    }
  }

  /** The escape loop only runs after a non-empty plain run: an escape right
    * after the opening quote is an error. */
  lemma EscapeFirstFails(rest: string)
    ensures QuotedString("\"\\" + rest).Error?
  {
    var s := "\"\\" + rest;
    assert s[1..] == "\\" + rest;
    assert SpanOf(Strings.IsPlain, s[1..]) == 0;
  }

  /** ... and so is an escape right after another escape. */
  lemma EscapeAfterEscapeFails(p: string, c: char, rest: string)
    requires p != [] && AllPlain(p)
    requires c == '"' || c == '\\'
    ensures QuotedString("\"" + p + ['\\', c] + "\\" + rest).Error?
  {
    var s := "\"" + p + ['\\', c] + "\\" + rest;
    var u := ['\\', c] + ("\\" + rest);
    assert s[1..] == p + u;
    SpanOfPrefix(Strings.IsPlain, p, u);
    assert SpanOf(Strings.IsPlain, u) == 0;
    BodyOfRun(p, u);
    assert u[2..] == "\\" + rest;
    assert SpanOf(Strings.IsPlain, "\\" + rest) == 0;
  }

  // ------------------------------------------------------------ end of line

  /** `comment`: a ';' and the rest of the line, line ending left in place. */
  function Comment(s: string): (r: Res<()>)
    ensures !r.Failure?
    ensures r.Ok? ==> s != [] && s[0] == ';' && IsSuffix(r.rest, s)
    ensures r.Ok? ==> r.rest == [] || LineEnding(r.rest).Ok?
  {
    var semi := Char(';', s);
    if !semi.Ok? then Error else
    var text := NotLineEnding(semi.rest);
    if !text.Ok? then Error else Ok((), text.rest)
  }

  /** `end_of_line`: blanks, an optional comment, then a line ending or the
    * end of the input. */
  function EndOfLine(s: string): (r: Res<()>)
    ensures !r.Failure?
    ensures r.Ok? ==> IsSuffix(r.rest, s)
  {
    LineEnd(Space0(s))
  }

  /** What `end_of_line` does once the blanks are skipped. */
  function LineEnd(s: string): (r: Res<()>)
    ensures !r.Failure?
    ensures r.Ok? ==> IsSuffix(r.rest, s)
  {
    var c := Comment(s);
    var afterComment := if c.Ok? then c.rest else s;
    var ending := LineEnding(afterComment);
    if ending.Ok? then Ok((), ending.rest)
    else if afterComment == [] then Ok((), [])
    else Error
  }

  /** Blanks, an optional comment and the line ending make a line end; the
    * next line is left untouched. */
  lemma EndOfLineOf(gap: string, text: string, ending: string, rest: string)
    requires forall i :: 0 <= i < |gap| ==> IsBlank(gap[i])
    requires text == [] || (text[0] == ';' && forall i :: 0 <= i < |text| ==> NotLineBreak(text[i]))
    requires ending == "\n" || ending == "\r\n" || (ending == [] && rest == [])
    ensures EndOfLine(gap + text + ending + rest) == Ok((), rest)
  {
    var x := text + (ending + rest);
    assert gap + text + ending + rest == gap + x;
    Space0OfBlanks(gap, x);
    LineEndOf(text, ending, rest);
  }

  lemma LineEndOf(text: string, ending: string, rest: string)
    requires text == [] || (text[0] == ';' && forall i :: 0 <= i < |text| ==> NotLineBreak(text[i]))
    requires ending == "\n" || ending == "\r\n" || (ending == [] && rest == [])
    ensures LineEnd(text + (ending + rest)) == Ok((), rest)
  {
    LineEndingOf(ending, rest);
    if text != [] {
      CommentOf(text, ending + rest);
    } else {
      assert text + (ending + rest) == ending + rest;
      assert !Comment(ending + rest).Ok?;
    }
  }

  lemma CommentOf(text: string, after: string)
    requires text != [] && text[0] == ';' && forall i :: 0 <= i < |text| ==> NotLineBreak(text[i])
    requires after == [] || LineEnding(after).Ok?
    ensures Comment(text + after) == Ok((), after)
  {
    NotLineEndingOfLine(text[1..], after);
    assert (text + after)[1..] == text[1..] + after;
  }

  lemma LineEndingOf(ending: string, rest: string)
    requires ending == "\n" || ending == "\r\n" || (ending == [] && rest == [])
    ensures ending != [] ==> LineEnding(ending + rest) == Ok(ending, rest)
    ensures ending + rest == [] || LineEnding(ending + rest).Ok?
  {
    if ending == "\n" {
      assert (ending + rest)[1..] == rest;
    } else if ending == "\r\n" {
      assert (ending + rest)[2..] == rest;
    }
  }

  /** Anything else after the blanks is not the end of a line. */
  lemma EndOfLineRejects(gap: string, c: char, rest: string)
    requires forall i :: 0 <= i < |gap| ==> IsBlank(gap[i])
    requires !IsBlank(c) && c != ';' && c != '\n' && c != '\r'
    ensures EndOfLine(gap + [c] + rest).Error?
  {
    Space0OfBlanks(gap, [c] + rest);
    assert gap + [c] + rest == gap + ([c] + rest);
    assert !Comment([c] + rest).Ok?;
  }

  /** `line`: the rest of the line and its line ending. */
  function Line(s: string): (r: Res<()>)
    ensures !r.Failure?
    ensures r.Ok? ==> IsSuffix(r.rest, s) && |r.rest| < |s|
  {
    var text := NotLineEnding(s);
    if !text.Ok? then Error else
    var ending := LineEnding(text.rest);
    if !ending.Ok? then Error else Ok((), ending.rest)
  }

  /** `line` takes one whole line with its line ending, and fails on a last
    * line that has none. */
  lemma LineOf(text: string, after: string)
    requires forall i :: 0 <= i < |text| ==> NotLineBreak(text[i])
    requires after == [] || LineEnding(after).Ok?
    ensures Line(text + after) == if after == [] then Error else Ok((), LineEnding(after).rest)
  {
    NotLineEndingOfLine(text, after);
  }
}
