/**
 * Scanners of src/string.rs: double-quoted strings with backslash escapes,
 * `;` comments, and comment lines.
 */
module Strings {
  import opened Nom

  /** Characters `take_till1` keeps inside a quoted string. */
  predicate IsPlain(c: char) { c != '\\' && c != '"' }

  /** What the character after a backslash stands for: `\\`, `\"`, `\n`, `\t`. */
  function Unescape(c: char): (r: Option<char>)
    ensures r.Some? <==> c == '\\' || c == '"' || c == 'n' || c == 't'
  {
    if c == '\\' then Some('\\')
    else if c == '"' then Some('"')
    else if c == 'n' then Some('\n')
    else if c == 't' then Some('\t')
    else None
  }

  /** `escaped_transform(take_till1(..), '\\', alt(..))` on the text after the
    * opening quote; `first` holds while nothing has been consumed yet. */
  function EscapedTransform(s: string, first: bool): (r: Res<string>)
    decreases |s|
    ensures !r.Failure?
    ensures r.Ok? ==> IsSuffix(r.rest, s) && (r.rest == [] || r.rest[0] == '"')
  {
    if s == [] then Ok([], [])
    else if IsPlain(s[0]) then
      var n := SpanOf(IsPlain, s);
      Prepend(s[..n], EscapedTransform(s[n..], false))
    else if s[0] == '\\' then
      if |s| == 1 || Unescape(s[1]).None? then Error
      else Prepend([Unescape(s[1]).value], EscapedTransform(s[2..], false))
    else if first then Error
    else Ok([], s)
  }

  /** `string`: a quoted string, its escapes decoded. */
  function QuotedString(s: string): (r: Res<string>)
    ensures !r.Failure?
    ensures r.Ok? ==> s != [] && s[0] == '"' && IsSuffix(r.rest, s) && |r.rest| <= |s| - 2
  {
    var open := Char('"', s);
    if !open.Ok? then Error else
    var e := EscapedTransform(open.rest, true);
    var body := if e.Ok? then e else Ok([], open.rest);
    var close := Char('"', body.rest);
    if !close.Ok? then Error else Ok(body.value, close.rest)
  }

  /** The inverse of decoding: writes `t` with backslash escapes. */
  function Escape(t: string): string {
    if t == [] then [] else EscapeChar(t[0]) + Escape(t[1..])
  }

  function EscapeChar(c: char): string {
    if c == '\\' then "\\\\"
    else if c == '"' then "\\\""
    else if c == '\n' then "\\n"
    else if c == '\t' then "\\t"
    else [c]
  }

  /** One plain character is consumed on its own as well as within a run. */
  lemma PlainStep(s: string, first: bool)
    requires s != [] && IsPlain(s[0])
    ensures EscapedTransform(s, first) == Prepend([s[0]], EscapedTransform(s[1..], false))
  {
    var n := SpanOf(IsPlain, s);
    assert s[..n] == [s[0]] + s[1..n];
    if n > 1 {
      var t := s[1..];
      assert SpanOf(IsPlain, t) == n - 1;
      assert t[..n - 1] == s[1..n];
      assert t[n - 1..] == s[n..];
      assert EscapedTransform(t, false) == Prepend(s[1..n], EscapedTransform(s[n..], false));
      PrependPrepend([s[0]], s[1..n], EscapedTransform(s[n..], false));
    } else {
      assert s[1..] == s[n..];
      assert s[..n] == [s[0]];
    }
  }

  /** A known escape is decoded to the character it stands for. */
  lemma EscapeStep(s: string, first: bool)
    requires |s| >= 2 && s[0] == '\\' && Unescape(s[1]).Some?
    ensures EscapedTransform(s, first) == Prepend([Unescape(s[1]).value], EscapedTransform(s[2..], false))
  {
  }

  lemma EscapeCharShape(c: char)
    ensures (EscapeChar(c) == [c] && IsPlain(c)) ||
            (|EscapeChar(c)| == 2 && EscapeChar(c)[0] == '\\' && Unescape(EscapeChar(c)[1]) == Some(c))
  {
  }

  lemma {:induction false} EscapedRoundTrip(t: string, q: string, first: bool)
    requires q != [] && q[0] == '"'
    requires !(first && t == [])
    ensures EscapedTransform(Escape(t) + q, first) == Ok(t, q)
    decreases |t|
  {
    if t == [] {
      assert Escape(t) + q == q;
    } else {
      EscapedRoundTrip(t[1..], q, false);
      RoundTripStep(t[0], Escape(t[1..]) + q, first, t[1..], q);
      EscapeCons(t, q);
    }
  }

  lemma EscapeCons(t: string, q: string)
    requires t != []
    ensures Escape(t) + q == EscapeChar(t[0]) + (Escape(t[1..]) + q)
    ensures [t[0]] + t[1..] == t
  {
    assert Escape(t) == EscapeChar(t[0]) + Escape(t[1..]);
    ConcatAssoc(EscapeChar(t[0]), Escape(t[1..]), q);
  }

  /** One escaped character followed by text that decodes to `v`. */
  lemma RoundTripStep(c: char, tail: string, first: bool, v: string, q: string)
    requires EscapedTransform(tail, false) == Ok(v, q)
    ensures EscapedTransform(EscapeChar(c) + tail, first) == Ok([c] + v, q)
  {
    var s := EscapeChar(c) + tail;
    EscapeCharShape(c);
    if EscapeChar(c) == [c] {
      assert s[1..] == tail;
      PlainStep(s, first);
    } else {
      assert s[2..] == tail;
      EscapeStep(s, first);
    }
  }

  /** Decoding undoes escaping, consumes the closing quote and nothing more;
    * `""` is the empty string. */
  lemma QuotedStringRoundTrip(t: string, rest: string)
    ensures QuotedString("\"" + Escape(t) + "\"" + rest) == Ok(t, rest)
  {
    var q := "\"" + rest;
    var inner := Escape(t) + q;
    assert "\"" + Escape(t) + "\"" + rest == "\"" + inner;
    assert Char('"', "\"" + inner) == Ok('"', inner);
    if t != [] {
      EscapedRoundTrip(t, q, true);
    } else {
      assert inner == q;
    }
    assert Char('"', q) == Ok('"', rest);
  }

  lemma {:induction false} EscapedRejects(p: string, c: char, rest: string, first: bool)
    requires forall i :: 0 <= i < |p| ==> IsPlain(p[i])
    requires Unescape(c).None?
    ensures EscapedTransform(p + ['\\', c] + rest, first).Error?
    decreases |p|
  {
    var s := p + ['\\', c] + rest;
    if p == [] {
      assert s[1] == c;
    } else {
      assert s[1..] == p[1..] + ['\\', c] + rest;
      PlainStep(s, first);
      EscapedRejects(p[1..], c, rest, false);
    }
  }

  /** A backslash followed by anything but `\`, `"`, `n` or `t` fails. */
  lemma QuotedStringRejectsUnknownEscape(p: string, c: char, rest: string)
    requires forall i :: 0 <= i < |p| ==> IsPlain(p[i])
    requires Unescape(c).None?
    ensures QuotedString("\"" + p + ['\\', c] + rest).Error?
  {
    var s := "\"" + p + ['\\', c] + rest;
    assert s[1..] == p + ['\\', c] + rest;
    EscapedRejects(p, c, rest, true);
    assert s[1..][0] == if p == [] then '\\' else p[0];
  }

  lemma EmptyQuotedString()
    ensures QuotedString("\"\"") == Ok("", "")
  {
    QuotedStringRoundTrip("", "");
    assert "\"" + Escape("") + "\"" + "" == "\"\"";
  }

  // ---------------------------------------------------------------- comments

  predicate IsSemicolon(c: char) { c == ';' }

  /** `comment`: one or more ';' and the rest of the line, trimmed. */
  function Comment(s: string): (r: Res<string>)
    ensures !r.Failure?
    ensures r.Ok? ==> s != [] && s[0] == ';' && IsSuffix(r.rest, s)
  {
    var semis := TakeWhile1(IsSemicolon, s);
    if !semis.Ok? then Error else
    var line := NotLineEnding(semis.rest);
    if !line.Ok? then Error else Ok(Trim(line.value), line.rest)
  }

  function Semicolons(k: nat): (s: string)
    ensures |s| == k && forall i :: 0 <= i < k ==> s[i] == ';'
  {
    if k == 0 then [] else [';'] + Semicolons(k - 1)
  }

  /** Any number of leading ';' is skipped, the text is trimmed, and the line
    * ending is left for the caller. */
  lemma CommentOfLine(k: nat, text: string, rest: string)
    requires k >= 1
    requires forall i :: 0 <= i < |text| ==> NotLineBreak(text[i])
    requires text == [] || text[0] != ';'
    requires rest == [] || LineEnding(rest).Ok?
    ensures Comment(Semicolons(k) + text + rest) == Ok(Trim(text), rest)
  {
    var line := text + rest;
    assert Semicolons(k) + text + rest == Semicolons(k) + line;
    assert TakeWhile1(IsSemicolon, Semicolons(k) + line) == Ok(Semicolons(k), line) by {
      SemicolonsThen(k, line);
    }
    NotLineEndingOfLine(text, rest);
  }

  lemma SemicolonsThen(k: nat, line: string)
    requires k >= 1
    requires line == [] || line[0] != ';'
    ensures TakeWhile1(IsSemicolon, Semicolons(k) + line) == Ok(Semicolons(k), line)
  {
    var s := Semicolons(k) + line;
    SpanOfPrefix(IsSemicolon, Semicolons(k), line);
    assert s[..k] == Semicolons(k) && s[k..] == line;
  }

  // ------------------------------------------------------------ comment lines

  /** `comment_line`: a whole line, line ending included, that does not start
    * with a date shape; the value is the text it spans. */
  function CommentLine(s: string): (r: Res<string>)
    ensures !r.Failure?
    ensures DateLike(s).Ok? ==> r.Error?
    ensures r.Ok? ==> s == r.value + r.rest
  {
    if DateLike(s).Ok? then Error else
    var line := NotLineEnding(s);
    if !line.Ok? then Error else
    var ending := LineEnding(line.rest);
    if ending.Ok? then Ok(s[..|s| - |ending.rest|], ending.rest) else Ok(line.value, line.rest)
  }

  /** Exactly one line is consumed, with its line ending when it has one. */
  lemma CommentLineOfLine(line: string, ending: string, rest: string)
    requires forall i :: 0 <= i < |line| ==> NotLineBreak(line[i])
    requires ending == "\n" || ending == "\r\n" || (ending == [] && rest == [])
    requires !DateLike(line + ending + rest).Ok?
    ensures CommentLine(line + ending + rest) == Ok(line + ending, rest)
  {
    var s := line + ending + rest;
    assert s == line + (ending + rest);
    if ending != [] {
      assert LineEnding(ending + rest) == Ok(ending, rest);
    }
    assert NotLineEnding(s) == Ok(line, ending + rest) by {
      NotLineEndingOfLine(line, ending + rest);
    }
    if ending != [] {
      assert s[..|s| - |rest|] == line + ending;
    }
  }

}
