/**
 * src/include.rs: the `include` directive, the keyword `include`, blanks,
 * and the path as a quoted string, its escapes decoded.
 */
module Includes {
  import opened Nom
  import Strings

  datatype Include = Include(path: string)

  /** `include`. */
  function Parse(s: string): (r: Res<Include>)
    ensures !r.Failure?
    ensures r.Ok? ==> Tag("include", s).Ok? && |r.rest| < |s|
  {
    var keyword := Tag("include", s);
    if !keyword.Ok? then Forward(keyword) else
    var gap := Space1(keyword.rest);
    if !gap.Ok? then Forward(gap) else
    var path := Strings.QuotedString(gap.rest);
    if !path.Ok? then Forward(path) else
    Ok(Include(path.value), path.rest)
  }

  /** The path as a quoted string, escaped. */
  function Quoted(path: string): string {
    "\"" + Strings.Escape(path) + "\""
  }

  // ------------------------------------------------------------- properties

  /** `include`, blanks and a quoted path read back as that path, and nothing
    * after the closing quote is read. */
  lemma ParseOf(gap: string, path: string, rest: string)
    requires gap != [] && forall i :: 0 <= i < |gap| ==> IsBlank(gap[i])
    ensures Parse("include" + (gap + (Quoted(path) + rest))) == Ok(Include(path), rest)
  {
    var q := Quoted(path) + rest;
    assert Strings.QuotedString(q) == Ok(path, rest) by {
      Strings.QuotedStringRoundTrip(path, rest);
    }
    Space1OfBlanks(gap, q);
    var s := "include" + (gap + q);
    assert s[..7] == "include" && s[7..] == gap + q;
  }

  /** A path is required: `include` alone, or followed by blanks and no
    * string, is rejected. */
  lemma NeedsPath(gap: string, t: string)
    requires forall i :: 0 <= i < |gap| ==> IsBlank(gap[i])
    requires t == [] || (!IsBlank(t[0]) && t[0] != '"')
    ensures Parse("include" + (gap + t)).Error?
  {
    var s := "include" + (gap + t);
    assert s[..7] == "include" && s[7..] == gap + t;
    if gap != [] {
      Space1OfBlanks(gap, t);
    } else {
      assert gap + t == t;
    }
  }

  /** A second string after the path is not read, so a parse that must
    * consume its whole input fails. */
  lemma SecondStringLeft(gap: string, path: string, gap2: string, other: string)
    requires gap != [] && forall i :: 0 <= i < |gap| ==> IsBlank(gap[i])
    ensures var r := Parse("include" + (gap + (Quoted(path) + (gap2 + Quoted(other)))));
            r.Ok? && r.value == Include(path) && r.rest == gap2 + Quoted(other)
    ensures AllConsuming(Parse("include" + (gap + (Quoted(path) + (gap2 + Quoted(other)))))).Error?
  {
    ParseOf(gap, path, gap2 + Quoted(other));
  }
}
