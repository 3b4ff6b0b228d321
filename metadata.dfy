/**
 * src/metadata.rs: the `key: value` lines that may follow a directive.  Each
 * line is indented, its key starts with a lowercase letter, and its value is
 * a quoted string or, failing that, an arithmetic expression evaluated to a
 * number.  Lines are read until the first one that is not an entry, and
 * collected into a map in which a later key replaces an earlier one.
 */
module Metadata {
  import opened Nom
  import LibLexer
  import AmountExpression

  datatype Value = Str(text: string) | Number(number: real)

  /** Characters allowed after the first one of a key. */
  predicate IsKeyChar(c: char) { IsAlphanumeric(c) || c == '-' || c == '_' }

  predicate IsKey(k: string) {
    k != [] && IsAsciiLower(k[0]) && forall i :: 1 <= i < |k| ==> IsKeyChar(k[i])
  }

  /** `recognize(preceded(satisfy(is_lowercase), take_while(..)))`. */
  function Key(s: string): (r: Res<string>)
    ensures !r.Failure?
    ensures r.Ok? <==> s != [] && IsAsciiLower(s[0])
    ensures r.Ok? ==> IsKey(r.value) && s == r.value + r.rest && (r.rest == [] || !IsKeyChar(r.rest[0]))
  {
    if s == [] || !IsAsciiLower(s[0]) then Error else
    var n := 1 + SpanOf(IsKeyChar, s[1..]);
    KeyRun(s, n);
    Ok(s[..n], s[n..])
  }

  lemma KeyRun(s: string, n: nat)
    requires s != [] && n == 1 + SpanOf(IsKeyChar, s[1..])
    ensures n <= |s| && forall i :: 1 <= i < n ==> IsKeyChar(s[i])
    ensures n < |s| ==> !IsKeyChar(s[n])
  {
    assert forall i :: 1 <= i < n ==> s[i] == s[1..][i - 1];
    if n < |s| { assert s[n] == s[1..][n - 1]; }
  }

  /** `alt((map(string, String), map(expression, Number)))`. */
  function ParseValue(s: string): (r: Res<Value>)
    ensures !r.Failure?
    ensures r.Ok? ==> |r.rest| < |s|
    ensures r.Ok? && r.value.Str? ==> LibLexer.QuotedString(s) == Ok(r.value.text, r.rest)
  {
    var q := LibLexer.QuotedString(s);
    if q.Ok? then Ok(Str(q.value), q.rest) else
    var e := AmountExpression.Parse(s);
    if !e.Ok? then Error else Ok(Number(AmountExpression.Evaluate(e.value)), e.rest)
  }

  /** `entry`: blanks, key, `:`, blanks, value, end of line. */
  function Entry(s: string): (r: Res<(string, Value)>)
    ensures !r.Failure?
    ensures r.Ok? ==> s != [] && IsBlank(s[0]) && IsKey(r.value.0) && |r.rest| < |s|
  {
    var gap := Space1(s);
    if !gap.Ok? then Error else
    var key := Key(gap.rest);
    if !key.Ok? then Error else
    var colon := Char(':', key.rest);
    if !colon.Ok? then Error else
    var gap2 := Space1(colon.rest);
    if !gap2.Ok? then Error else
    var v := ParseValue(gap2.rest);
    if !v.Ok? then Error else
    var end := LibLexer.EndOfLine(v.rest);
    if !end.Ok? then Error else Ok((key.value, v.value), end.rest)
  }

  /** The entries `iterator(input, entry)` yields, and where it stops. */
  function Entries(s: string): (r: (seq<(string, Value)>, string))
    ensures |r.1| <= |s|
    ensures Entry(r.1).Error?
    ensures r.0 == [] <==> r.1 == s
    decreases |s|
  {
    var e := Entry(s);
    if e.Ok? then ([e.value] + Entries(e.rest).0, Entries(e.rest).1) else ([], s)
  }

  /** `collect` into a map: entries are inserted in order, so for a repeated
    * key the last value stays. */
  function Collect(es: seq<(string, Value)>): map<string, Value> {
    if es == [] then map[] else Collect(es[..|es| - 1])[es[|es| - 1].0 := es[|es| - 1].1]
  }

  /** `parse`: the collected entries, and the input from the first line that
    * is not an entry.  An entry cannot fail for good, so neither can this. */
  function Parse(s: string): (r: Res<map<string, Value>>)
    ensures r.Ok? && |r.rest| <= |s| && Entry(r.rest).Error?
  {
    var (es, rest) := Entries(s);
    Ok(Collect(es), rest)
  }

  // ------------------------------------------------------------- properties

  function KeysOf(es: seq<(string, Value)>): set<string> {
    set i | 0 <= i < |es| :: es[i].0
  }

  /** The map holds exactly the keys read. */
  lemma {:induction false} CollectKeys(es: seq<(string, Value)>)
    ensures Collect(es).Keys == KeysOf(es)
  {
    if es != [] {
      var init := es[..|es| - 1];
      CollectKeys(init);
      assert KeysOf(es) == KeysOf(init) + {es[|es| - 1].0} by {
        forall k | k in KeysOf(es) ensures k in KeysOf(init) + {es[|es| - 1].0} {
          var i :| 0 <= i < |es| && es[i].0 == k;
          if i < |init| { assert init[i] == es[i]; }
        }
        forall k | k in KeysOf(init) ensures k in KeysOf(es) {
          var i :| 0 <= i < |init| && init[i].0 == k;
          assert es[i] == init[i];
        }
      }
    }
  }

  /** For a repeated key the later value replaces the earlier one: the map
    * holds the value of the key's last entry. */
  lemma {:induction false} LastWins(es: seq<(string, Value)>, i: nat)
    requires i < |es|
    requires forall j :: i < j < |es| ==> es[j].0 != es[i].0
    ensures es[i].0 in Collect(es) && Collect(es)[es[i].0] == es[i].1
  {
    var last := |es| - 1;
    if i < last {
      var init := es[..last];
      assert init[i] == es[i];
      forall j | i < j < |init| ensures init[j].0 != init[i].0 {
        assert init[j] == es[j];
      }
      LastWins(init, i);
    }
  }

  /** A line that is not an entry ends the metadata without being consumed,
    * and then there is no metadata at all. */
  lemma NoEntry(s: string)
    requires Entry(s).Error?
    ensures Parse(s) == Ok(map[], s)
  {
  }

  /** An entry line must begin with a blank: at the start of a line without
    * indentation, the metadata is empty. */
  lemma NeedsIndent(s: string)
    requires s == [] || !IsBlank(s[0])
    ensures Parse(s) == Ok(map[], s)
  {
  }

  /** Reading one entry from its parts. */
  lemma EntryOf(gap: string, key: string, gap2: string, after: string, v: Value, tail: string, rest: string)
    requires gap != [] && AmountExpression.Blanks(gap)
    requires IsKey(key)
    requires gap2 != [] && AmountExpression.Blanks(gap2)
    requires after == [] || !IsBlank(after[0])
    requires ParseValue(after) == Ok(v, tail)
    requires LibLexer.EndOfLine(tail) == Ok((), rest)
    ensures Entry(gap + (key + (":" + (gap2 + after)))) == Ok((key, v), rest)
  {
    var c := ":" + (gap2 + after);
    KeyThenColon(gap, key, c);
    Space0OfBlanks(gap2, after);
    assert (gap2 + after)[0] == gap2[0];
  }

  lemma KeyThenColon(gap: string, key: string, c: string)
    requires gap != [] && AmountExpression.Blanks(gap)
    requires IsKey(key)
    requires c != [] && c[0] == ':'
    ensures Space1(gap + (key + c)) == Ok(gap, key + c)
    ensures Key(key + c) == Ok(key, c)
  {
    Space0OfBlanks(gap, key + c);
    assert (gap + (key + c))[0] == gap[0];
    KeyOf(key, c);
  }

  lemma KeyOf(key: string, c: string)
    requires IsKey(key)
    requires c == [] || !IsKeyChar(c[0])
    ensures Key(key + c) == Ok(key, c)
  {
    var s := key + c;
    assert s[1..] == key[1..] + c;
    SpanOfPrefix(IsKeyChar, key[1..], c);
    assert s[..|key|] == key && s[|key|..] == c;
  }

  /** A quoted value is a string value. */
  lemma StringValueOf(p: string, rest: string)
    requires LibLexer.AllPlain(p)
    ensures ParseValue("\"" + p + "\"" + rest) == Ok(Str(p), rest)
  {
    LibLexer.PlainString(p, rest);
  }

  /** Any other value is read as an expression and stored evaluated. */
  lemma NumberValueOf(t: AmountExpression.Term, gap: string, stop: string)
    requires AmountExpression.Blanks(gap) && AmountExpression.Stops(stop)
    ensures ParseValue(AmountExpression.PrintThen(t, gap, stop)) ==
            Ok(Number(AmountExpression.Evaluate(AmountExpression.ToExpression(t))), stop)
  {
    NotQuoted(t, gap, stop);
    AmountExpression.ParsePrint(t, gap, stop);
  }

  lemma NotQuoted(t: AmountExpression.Term, gap: string, stop: string)
    ensures LibLexer.QuotedString(AmountExpression.PrintThen(t, gap, stop)).Error?
  {
    AmountExpression.PrintStart(t, gap, stop);
    if t.Lit? {
      assert AmountExpression.PrintThen(t, gap, stop)[0] == NatText(t.n)[0];
    }
  }

  /** A key must start with a lowercase letter: `Key: "v"` is not an entry. */
  lemma UppercaseKeyRejected(gap: string, c: char, after: string)
    requires gap != [] && AmountExpression.Blanks(gap)
    requires !IsBlank(c) && !IsAsciiLower(c)
    ensures Entry(gap + ([c] + after)).Error?
  {
    Space0OfBlanks(gap, [c] + after);
    assert (gap + ([c] + after))[0] == gap[0];
  }
}
