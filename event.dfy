/**
 * src/event.rs: the body of an `event` directive, two quoted strings
 * separated by blanks.  The rest of the line is left to the caller.
 */
module Events {
  import opened Nom
  import LibLexer

  datatype Event = Event(name: string, value: string)

  /** `parse`: string, blanks, string. */
  function Parse(s: string): (r: Res<Event>)
    ensures !r.Failure?
    ensures r.Ok? ==> |r.rest| < |s|
    ensures r.Ok? ==> LibLexer.QuotedString(s).Ok? && r.value.name == LibLexer.QuotedString(s).value
  {
    var name := LibLexer.QuotedString(s);
    if !name.Ok? then Error else
    var gap := Space1(name.rest);
    if !gap.Ok? then Error else
    var value := LibLexer.QuotedString(gap.rest);
    if !value.Ok? then Error else Ok(Event(name.value, value.value), value.rest)
  }

  /** The first string is the name and the second the value; whatever
    * follows the second string is left unread. */
  lemma ParseOf(name: string, gap: string, value: string, rest: string)
    requires LibLexer.AllPlain(name) && LibLexer.AllPlain(value)
    requires gap != [] && forall i :: 0 <= i < |gap| ==> IsBlank(gap[i])
    ensures Parse("\"" + name + "\"" + (gap + ("\"" + value + "\"" + rest))) == Ok(Event(name, value), rest)
  {
    var second := "\"" + value + "\"" + rest;
    LibLexer.PlainString(name, gap + second);
    Space0OfBlanks(gap, second);
    assert (gap + second)[0] == gap[0];
    LibLexer.PlainString(value, rest);
  }

  /** Without a blank between them the two strings are not an event. */
  lemma NeedsBlank(name: string, rest: string)
    requires LibLexer.AllPlain(name)
    requires rest == [] || !IsBlank(rest[0])
    ensures Parse("\"" + name + "\"" + rest).Error?
  {
    LibLexer.PlainString(name, rest);
  }

  /** A name followed by blanks and no second string is not an event. */
  lemma NeedsValue(name: string, gap: string, rest: string)
    requires LibLexer.AllPlain(name)
    requires gap != [] && forall i :: 0 <= i < |gap| ==> IsBlank(gap[i])
    requires rest == [] || (rest[0] != '"' && !IsBlank(rest[0]))
    ensures Parse("\"" + name + "\"" + (gap + rest)).Error?
  {
    LibLexer.PlainString(name, gap + rest);
    Space0OfBlanks(gap, rest);
    assert (gap + rest)[0] == gap[0];
  }

  /** Input that does not start with a quote is not an event. */
  lemma NeedsName(s: string)
    requires s == [] || s[0] != '"'
    ensures Parse(s).Error?
  {
  }
}
