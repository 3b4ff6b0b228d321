/**
 * src/account.rs: an account is one of five root types followed by one or
 * more `:`-separated components; it displays as the text it was parsed from.
 */
module Accounts {
  import opened Nom

  datatype Type = Assets | Liabilities | Equity | Income | Expenses

  datatype Account = Account(kind: Type, components: seq<string>)

  /** `Display for Type`: the variant's own name. */
  function TypeName(t: Type): (name: string)
    ensures name != [] && forall i :: 0 <= i < |name| ==> IsAlphanumeric(name[i])
  {
    match t
    case Assets => "Assets"
    case Liabilities => "Liabilities"
    case Equity => "Equity"
    case Income => "Income"
    case Expenses => "Expenses"
  }

  /** `type_`: the five root names, tried in the source's order. */
  function ParseType(s: string): (r: Res<Type>)
    ensures !r.Failure?
    ensures r.Ok? ==> s == TypeName(r.value) + r.rest
  {
    if Tag("Assets", s).Ok? then Ok(Assets, Tag("Assets", s).rest)
    else if Tag("Liabilities", s).Ok? then Ok(Liabilities, Tag("Liabilities", s).rest)
    else if Tag("Income", s).Ok? then Ok(Income, Tag("Income", s).rest)
    else if Tag("Expenses", s).Ok? then Ok(Expenses, Tag("Expenses", s).rest)
    else if Tag("Equity", s).Ok? then Ok(Equity, Tag("Equity", s).rest)
    else Error
  }

  /** Characters of a component: alphanumerics and '-'. */
  predicate IsComponentChar(c: char) { IsAlphanumeric(c) || c == '-' }

  predicate ValidComponent(c: string) {
    c != [] && forall i :: 0 <= i < |c| ==> IsComponentChar(c[i])
  }

  /** The components as displayed: each preceded by ':'. */
  function Joined(cs: seq<string>): string {
    if cs == [] then [] else ":" + cs[0] + Joined(cs[1..])
  }

  /** `Display for Account`: the type, then ":" and each component. */
  function Format(a: Account): string {
    TypeName(a.kind) + Joined(a.components)
  }

  /** The tail of `separated_list1(char(':'), take_while1(..))` after its first
    * element: further `:component` pairs, stopping before a ':' that is not
    * followed by a component. */
  function MoreComponents(s: string): (r: Res<seq<string>>)
    decreases |s|
    ensures r.Ok? && |r.rest| <= |s|
  {
    var sep := Char(':', s);
    if !sep.Ok? then Ok([], s) else
    var c := TakeWhile1(IsComponentChar, sep.rest);
    if !c.Ok? then Ok([], s) else
    var more := MoreComponents(c.rest);
    Ok([c.value] + more.value, more.rest)
  }

  /** `separated_list1(char(':'), take_while1(..))`. */
  function Components(s: string): (r: Res<seq<string>>)
    ensures !r.Failure?
    ensures r.Ok? ==> r.value != [] && |r.rest| < |s|
  {
    var first := TakeWhile1(IsComponentChar, s);
    if !first.Ok? then Error else
    var more := MoreComponents(first.rest);
    Ok([first.value] + more.value, more.rest)
  }

  /** `account`: type, ':', components. */
  function ParseAccount(s: string): (r: Res<Account>)
    ensures !r.Failure?
    ensures r.Ok? ==> |r.rest| < |s|
  {
    var t := ParseType(s);
    if !t.Ok? then Forward(t) else
    var colon := Char(':', t.rest);
    if !colon.Ok? then Forward(colon) else
    var cs := Components(colon.rest);
    if !cs.Ok? then Forward(cs) else
    Ok(Account(t.value, cs.value), cs.rest)
  }

  /** An account as built by the parser: at least one component, each valid. */
  predicate ValidAccount(a: Account) {
    a.components != [] && forall i :: 0 <= i < |a.components| ==> ValidComponent(a.components[i])
  }

  /** The text after an account that the parser does not take as more path. */
  predicate EndsPath(rest: string) {
    (rest == [] || !IsComponentChar(rest[0])) &&
    !(|rest| >= 2 && rest[0] == ':' && IsComponentChar(rest[1]))
  }

  /** `Display for Account`, written as the source writes it: the type, then
    * one component at a time. */
  method Display(a: Account) returns (out: string)
    ensures out == Format(a)
  {
    out := TypeName(a.kind);
    var i := 0;
    while i < |a.components|
      invariant 0 <= i <= |a.components|
      invariant out + Joined(a.components[i..]) == Format(a)
    {
      assert a.components[i..][1..] == a.components[i + 1..];
      out := out + ":" + a.components[i];
      i := i + 1;
    }
  }

  /** Each type reads back from its own name. */
  lemma TypeNameRoundTrip(t: Type, rest: string)
    ensures ParseType(TypeName(t) + rest) == Ok(t, rest)
  {
    var s := TypeName(t) + rest;
    var n := TypeName(t);
    assert s[..|n|] == n;
    assert s[0] == n[0];
    if t == Equity { assert s[1] == 'q'; }
  }

  /** One `:component` pair is taken, and the list goes on after it. */
  lemma MoreComponentsTake(s: string)
    requires Char(':', s).Ok? && TakeWhile1(IsComponentChar, s[1..]).Ok?
    ensures var c := TakeWhile1(IsComponentChar, s[1..]);
            MoreComponents(s) == Ok([c.value] + MoreComponents(c.rest).value, MoreComponents(c.rest).rest)
  {
  }

  /** Without ':' and a component the list ends, consuming nothing. */
  lemma MoreComponentsStop(s: string)
    requires !(Char(':', s).Ok? && TakeWhile1(IsComponentChar, s[1..]).Ok?)
    ensures MoreComponents(s) == Ok([], s)
  {
  }

  lemma JoinedCons(c: string, cs: seq<string>)
    ensures Joined([c] + cs) == ":" + c + Joined(cs)
  {
    assert ([c] + cs)[1..] == cs;
  }

  /** Whatever the component list consumed is the displayed form of what it
    * returned, and every component it returned is valid. */
  lemma {:induction false} MoreComponentsShape(s: string)
    ensures s == Joined(MoreComponents(s).value) + MoreComponents(s).rest
    ensures forall i :: 0 <= i < |MoreComponents(s).value| ==> ValidComponent(MoreComponents(s).value[i])
    decreases |s|
  {
    if Char(':', s).Ok? && TakeWhile1(IsComponentChar, s[1..]).Ok? {
      var c := TakeWhile1(IsComponentChar, s[1..]);
      var more := MoreComponents(c.rest);
      MoreComponentsTake(s);
      MoreComponentsShape(c.rest);
      JoinedCons(c.value, more.value);
      Reassemble(s, ':', c.value, c.rest, Joined(more.value), more.rest);
      assert forall i :: 0 < i < |[c.value] + more.value| ==> ([c.value] + more.value)[i] == more.value[i - 1];
    } else {
      MoreComponentsStop(s);
    }
  }

  lemma {:induction false} MoreComponentsRoundTrip(cs: seq<string>, rest: string)
    requires forall i :: 0 <= i < |cs| ==> ValidComponent(cs[i])
    requires EndsPath(rest)
    ensures MoreComponents(Joined(cs) + rest) == Ok(cs, rest)
    decreases |cs|
  {
    if cs == [] {
      MoreComponentsStop(rest);
    } else {
      var tail := Joined(cs[1..]) + rest;
      var s := Joined(cs) + rest;
      MoreComponentsRoundTrip(cs[1..], rest);
      JoinedCons(cs[0], cs[1..]);
      HeadTail(cs);
      Disassemble(':', cs[0], Joined(cs[1..]), rest);
      assert s[0] == ':' && s[1..] == cs[0] + tail;
      assert tail == [] || !IsComponentChar(tail[0]) by {
        if cs[1..] != [] { JoinedCons(cs[1], cs[2..]); assert [cs[1]] + cs[2..] == cs[1..]; }
      }
      TakeWhile1OfRun(IsComponentChar, cs[0], tail);
      MoreComponentsTake(s);
    }
  }

  /** Display and parsing are inverse: formatting an account and parsing the
    * text gives back the same type and components, in order. */
  lemma FormatRoundTrip(a: Account, rest: string)
    requires ValidAccount(a) && EndsPath(rest)
    ensures ParseAccount(Format(a) + rest) == Ok(a, rest)
  {
    var cs := a.components;
    var path := Joined(cs) + rest;
    assert Format(a) + rest == TypeName(a.kind) + path;
    TypeNameRoundTrip(a.kind, path);
    JoinedSplit(cs, rest);
    ComponentsRoundTrip(cs, rest);
  }

  /** The components after the ':' that ends the root name. */
  lemma ComponentsRoundTrip(cs: seq<string>, rest: string)
    requires cs != [] && forall i :: 0 <= i < |cs| ==> ValidComponent(cs[i])
    requires EndsPath(rest)
    ensures Components(cs[0] + (Joined(cs[1..]) + rest)) == Ok(cs, rest)
  {
    var more := Joined(cs[1..]) + rest;
    JoinedThenEndsPath(cs[1..], rest);
    TakeWhile1OfRun(IsComponentChar, cs[0], more);
    MoreComponentsRoundTrip(cs[1..], rest);
    ComponentsTake(cs[0] + more);
    HeadTail(cs);
  }

  lemma JoinedSplit(cs: seq<string>, rest: string)
    requires cs != []
    ensures (Joined(cs) + rest)[0] == ':'
    ensures (Joined(cs) + rest)[1..] == cs[0] + (Joined(cs[1..]) + rest)
  {
    JoinedCons(cs[0], cs[1..]);
    HeadTail(cs);
    Disassemble(':', cs[0], Joined(cs[1..]), rest);
  }

  /** After the displayed components comes ':' or the end of the path. */
  lemma JoinedThenEndsPath(cs: seq<string>, rest: string)
    requires EndsPath(rest)
    ensures var more := Joined(cs) + rest; more == [] || !IsComponentChar(more[0])
  {
    if cs != [] { JoinedSplit(cs, rest); }
  }

  lemma ComponentsTake(s: string)
    requires TakeWhile1(IsComponentChar, s).Ok?
    ensures var first := TakeWhile1(IsComponentChar, s);
            Components(s) == Ok([first.value] + MoreComponents(first.rest).value, MoreComponents(first.rest).rest)
  {
  }

  /** What the component list consumed, written back: the components, each
    * valid, joined by ':'. */
  lemma ComponentsShape(p: string)
    requires Components(p).Ok?
    ensures var cs := Components(p).value;
            (forall i :: 0 <= i < |cs| ==> ValidComponent(cs[i])) &&
            p == cs[0] + (Joined(cs[1..]) + Components(p).rest)
  {
    var first := TakeWhile1(IsComponentChar, p);
    var more := MoreComponents(first.rest);
    ComponentsTake(p);
    MoreComponentsShape(first.rest);
    var cs := [first.value] + more.value;
    assert cs[1..] == more.value;
    assert forall i :: 0 < i < |cs| ==> cs[i] == more.value[i - 1];
  }

  /** What a successful `account` read, part by part. */
  lemma ParseAccountSteps(s: string)
    requires ParseAccount(s).Ok?
    ensures var t := ParseType(s);
            t.Ok? && t.rest != [] && t.rest[0] == ':' && Components(t.rest[1..]).Ok? &&
            ParseAccount(s) == Ok(Account(t.value, Components(t.rest[1..]).value), Components(t.rest[1..]).rest)
  {
  }

  /** Parsing then displaying reproduces the consumed text exactly. */
  lemma ParseThenFormat(s: string)
    requires ParseAccount(s).Ok?
    ensures ValidAccount(ParseAccount(s).value)
    ensures s == Format(ParseAccount(s).value) + ParseAccount(s).rest
  {
    ParseAccountSteps(s);
    var t := ParseType(s);
    var c := Components(t.rest[1..]);
    var cs := c.value;
    ComponentsShape(t.rest[1..]);
    Reassemble(t.rest, ':', cs[0], Joined(cs[1..]) + c.rest, Joined(cs[1..]), c.rest);
    JoinedCons(cs[0], cs[1..]);
    HeadTail(cs);
    assert t.rest == Joined(cs) + c.rest;
    ConcatAssoc(TypeName(t.value), Joined(cs), c.rest);
  }

  /** An account starts with the uppercase initial of its root name. */
  lemma AccountStart(s: string)
    requires ParseAccount(s).Ok?
    ensures IsAsciiUpper(s[0])
  {
    var t := ParseType(s);
    assert s[0] == TypeName(t.value)[0];
  }

  /** A root name followed by ':' and no component, such as `Assets:`, is rejected. */
  lemma EmptyPathRejected(t: Type, rest: string)
    requires rest == [] || !IsComponentChar(rest[0])
    ensures ParseAccount(TypeName(t) + ":" + rest).Error?
  {
    TypeNameRoundTrip(t, ":" + rest);
    assert TypeName(t) + ":" + rest == TypeName(t) + (":" + rest);
    assert (":" + rest)[1..] == rest;
  }
}
