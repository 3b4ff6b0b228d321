/**
 * src/transaction.rs: the transaction grammar of the generation built around
 * src/lib.rs.  A header (a flag or `txn`, optional payee and narration, tags)
 * is followed by metadata lines and indented postings.  Once the flag or
 * `txn` is read, the rest is committed.  Accounts come from the `account`
 * module, which is not part of this model (see module External).
 */
module LibTransaction {
  import opened Nom
  import External
  import LibLexer
  import Metadata
  import AmountParser
  import Dates
  import Decimals

  type Amount = AmountParser.Amount

  datatype Flag = Completed | Incomplete

  /** The flag `Flag::default` gives. */
  const DEFAULT_FLAG: Flag := Completed

  datatype Cost = Cost(amount: Option<Amount>, date: Option<Dates.Date>)

  datatype PostingPrice = Unit(unit: Amount) | Total(total: Amount)

  datatype Posting = Posting(
    flag: Option<Flag>,
    account: string,
    amount: Option<Amount>,
    cost: Option<Cost>,
    price: Option<PostingPrice>)

  datatype Transaction = Transaction(
    flag: Option<Flag>,
    payee: Option<string>,
    narration: Option<string>,
    tags: set<string>,
    postings: seq<Posting>)

  /** `From<Flag> for char`. */
  function ToChar(f: Flag): char {
    match f
    case Completed => '*'
    case Incomplete => '!'
  }

  /** `flag`: `*` or `!`. */
  function ParseFlag(s: string): (r: Res<Flag>)
    ensures !r.Failure?
    ensures r.Ok? <==> s != [] && (s[0] == '*' || s[0] == '!')
    ensures r.Ok? ==> ToChar(r.value) == s[0] && r.rest == s[1..]
  {
    if s != [] && s[0] == '*' then Ok(Completed, s[1..])
    else if s != [] && s[0] == '!' then Ok(Incomplete, s[1..])
    else Error
  }

  /** Writing a flag and reading it back gives the same flag. */
  lemma FlagRoundTrip(f: Flag, rest: string)
    ensures ParseFlag([ToChar(f)] + rest) == Ok(f, rest)
  {
  }

  /** The first step of `parse`: a flag, or the keyword `txn` for no flag. */
  function HeaderFlag(s: string): (r: Res<Option<Flag>>)
    ensures !r.Failure?
    ensures r.Ok? ==> |r.rest| < |s|
    ensures r.Ok? && r.value.Some? ==> ParseFlag(s) == Ok(r.value.value, r.rest)
    ensures r.Ok? && r.value.None? ==> Tag("txn", s) == Ok("txn", r.rest)
  {
    var f := ParseFlag(s);
    if f.Ok? then Ok(Some(f.value), f.rest) else
    var t := Tag("txn", s);
    if t.Ok? then Ok(None, t.rest) else Error
  }

  /** `txn` means a transaction without a flag. */
  lemma TxnHasNoFlag(rest: string)
    ensures HeaderFlag("txn" + rest) == Ok(None, rest)
  {
    assert ("txn" + rest)[..3] == "txn";
  }

  // -------------------------------------------------------------------- tags

  predicate IsTagChar(c: char) { IsAlphanumeric(c) || c == '-' || c == '_' }

  predicate AllTagChars(t: string) { forall i :: 0 <= i < |t| ==> IsTagChar(t[i]) }

  /** `parse_tag`: `#` and the longest run of tag characters, maybe empty. */
  function ParseTag(s: string): (r: Res<string>)
    ensures !r.Failure?
    ensures r.Ok? <==> s != [] && s[0] == '#'
    ensures r.Ok? ==> AllTagChars(r.value) && s[1..] == r.value + r.rest && (r.rest == [] || !IsTagChar(r.rest[0]))
  {
    var hash := Char('#', s);
    if !hash.Ok? then Error else TakeWhile(IsTagChar, hash.rest)
  }

  /** The tags `iterator(input, preceded(space1, parse_tag))` yields, and where
    * it stops: before the blanks of the first item that is not a tag. */
  function TagList(s: string): (r: (seq<string>, string))
    ensures |r.1| <= |s|
    decreases |s|
  {
    var gap := Space1(s);
    if !gap.Ok? then ([], s) else
    var t := ParseTag(gap.rest);
    if !t.Ok? then ([], s) else
    var more := TagList(t.rest);
    ([t.value] + more.0, more.1)
  }

  /** `tags`: the tags collected into a set, so a repeated tag counts once. */
  function Tags(s: string): (r: Res<set<string>>)
    ensures r.Ok? && |r.rest| <= |s|
  {
    var (ts, rest) := TagList(s);
    Ok(set i | 0 <= i < |ts| :: ts[i], rest)
  }

  /** ` #t1 #t2 ...`: each name with one blank and `#` before it. */
  function TagsText(names: seq<string>, rest: string): string
    decreases |names|
  {
    if names == [] then rest else " #" + names[0] + TagsText(names[1..], rest)
  }

  predicate TagNames(names: seq<string>) { forall i :: 0 <= i < |names| ==> AllTagChars(names[i]) }

  /** Written tags are read back in order, up to what cannot start a tag. */
  lemma {:induction false} TagListOf(names: seq<string>, rest: string)
    requires TagNames(names)
    requires rest == [] || (!IsTagChar(rest[0]) && !IsBlank(rest[0]))
    ensures TagList(TagsText(names, rest)) == (names, rest)
    decreases |names|
  {
    if names == [] {
      assert Space1(rest).Error?;
    } else {
      TagListOf(names[1..], rest);
      TagsTextStart(names[1..], rest);
      TagListCons(names, rest);
    }
  }

  lemma TagListCons(names: seq<string>, rest: string)
    requires names != [] && AllTagChars(names[0])
    requires TagList(TagsText(names[1..], rest)) == (names[1..], rest)
    requires TagsText(names[1..], rest) == [] || !IsTagChar(TagsText(names[1..], rest)[0])
    ensures TagList(TagsText(names, rest)) == (names, rest)
  {
    var after := TagsText(names[1..], rest);
    assert TagsText(names, rest) == " #" + names[0] + after;
    TagListStep(names[0], after);
    HeadTail(names);
  }

  lemma TagListStep(name: string, after: string)
    requires AllTagChars(name)
    requires after == [] || !IsTagChar(after[0])
    ensures TagList(" #" + name + after) == ([name] + TagList(after).0, TagList(after).1)
  {
    TagStep(name, after);
  }

  lemma TagStep(name: string, after: string)
    requires AllTagChars(name)
    requires after == [] || !IsTagChar(after[0])
    ensures Space1(" #" + name + after) == Ok(" ", "#" + name + after)
    ensures ParseTag("#" + name + after) == Ok(name, after)
  {
    TagSpace(name, after);
    TagRead(name, after);
  }

  lemma TagSpace(name: string, after: string)
    ensures Space1(" #" + name + after) == Ok(" ", "#" + name + after)
  {
    var s := "#" + name + after;
    assert (" #" + name + after)[1..] == s;
    Space0OfBlanks(" ", s);
    assert " " + s == " #" + name + after;
  }

  lemma TagRead(name: string, after: string)
    requires AllTagChars(name)
    requires after == [] || !IsTagChar(after[0])
    ensures ParseTag("#" + name + after) == Ok(name, after)
  {
    var s := "#" + name + after;
    assert s[1..] == name + after;
    SpanOfPrefix(IsTagChar, name, after);
    if after != [] { assert SpanOf(IsTagChar, after) == 0; }
    assert (name + after)[..|name|] == name && (name + after)[|name|..] == after;
  }

  lemma TagsTextStart(names: seq<string>, rest: string)
    requires rest == [] || (!IsTagChar(rest[0]) && !IsBlank(rest[0]))
    ensures var t := TagsText(names, rest); t == [] || !IsTagChar(t[0])
  {
    if names != [] { assert TagsText(names, rest)[0] == ' '; }
  }

  /** The tags of a header form the set of the names written, repeats
    * included once. */
  lemma TagsOf(names: seq<string>, rest: string)
    requires TagNames(names)
    requires rest == [] || (!IsTagChar(rest[0]) && !IsBlank(rest[0]))
    ensures Tags(TagsText(names, rest)) == Ok(set i | 0 <= i < |names| :: names[i], rest)
  {
    TagListOf(names, rest);
  }

  // ------------------------------------------------------ payee and narration

  /** `payee_and_narration`: one string is the narration; two are the payee
    * and the narration. */
  function PayeeAndNarration(s: string): (r: Res<(Option<string>, string)>)
    ensures !r.Failure?
    ensures r.Ok? ==> |r.rest| < |s|
  {
    var first := LibLexer.QuotedString(s);
    if !first.Ok? then Error else
    var gap := Space1(first.rest);
    var second := if gap.Ok? then LibLexer.QuotedString(gap.rest) else Error;
    if second.Ok? then Ok((Some(first.value), second.value), second.rest)
    else Ok((None, first.value), first.rest)
  }

  /** A single string is the narration, and there is no payee. */
  lemma NarrationOnly(n: string, rest: string)
    requires LibLexer.AllPlain(n)
    requires rest == [] || !IsBlank(rest[0]) || (Space1(rest).Ok? && !LibLexer.QuotedString(Space1(rest).rest).Ok?)
    ensures PayeeAndNarration("\"" + n + "\"" + rest) == Ok((None, n), rest)
  {
    LibLexer.PlainString(n, rest);
  }

  /** Two strings are the payee, then the narration. */
  lemma PayeeThenNarration(p: string, gap: string, n: string, rest: string)
    requires LibLexer.AllPlain(p) && LibLexer.AllPlain(n)
    requires gap != [] && forall i :: 0 <= i < |gap| ==> IsBlank(gap[i])
    ensures PayeeAndNarration("\"" + p + "\"" + (gap + ("\"" + n + "\"" + rest))) == Ok((Some(p), n), rest)
  {
    var second := "\"" + n + "\"" + rest;
    LibLexer.PlainString(p, gap + second);
    Space0OfBlanks(gap, second);
    assert (gap + second)[0] == gap[0];
    LibLexer.PlainString(n, rest);
  }

  // -------------------------------------------------------------------- cost

  /** `delimited(space0, char(','), space0)`. */
  function Comma(s: string): (r: Res<string>)
    ensures !r.Failure?
    ensures r.Ok? ==> |r.rest| < |s|
  {
    var c := Char(',', Space0(s));
    if !c.Ok? then Error else Ok(",", Space0(c.rest))
  }

  lemma DateShorter(s: string)
    requires Dates.Parse(s).Ok?
    ensures |Dates.Parse(s).rest| < |s|
  {
    Dates.ParseSpec(s);
  }

  /** `date::parse`, with the length of what it leaves. */
  function ParseDate(s: string): (r: Res<Dates.Date>)
    ensures r == Dates.Parse(s)
    ensures r.Ok? ==> |r.rest| < |s|
  {
    var d := Dates.Parse(s);
    if d.Ok? then DateShorter(s); d else d
  }

  /** `separated_pair(amount, comma, date)`. */
  function AmountThenDate(s: string): (r: Res<(Amount, Dates.Date)>)
    ensures r.Ok? ==> |r.rest| < |s|
  {
    var a := AmountParser.Parse(s);
    if !a.Ok? then Error else
    var c := Comma(a.rest);
    if !c.Ok? then Error else
    var d := ParseDate(c.rest);
    if !d.Ok? then Forward(d) else Ok((a.value, d.value), d.rest)
  }

  /** `separated_pair(date, comma, amount)`. */
  function DateThenAmount(s: string): (r: Res<(Dates.Date, Amount)>)
    ensures r.Ok? ==> |r.rest| < |s|
    ensures r.Failure? <==> Dates.Parse(s).Failure?
  {
    var d := ParseDate(s);
    if !d.Ok? then Forward(d) else
    var c := Comma(d.rest);
    if !c.Ok? then Error else
    var a := AmountParser.Parse(c.rest);
    if !a.Ok? then Error else Ok((d.value, a.value), a.rest)
  }

  /** The five alternatives inside the braces, tried in order: amount and
    * date, date and amount, amount, date, nothing.  Only a date that fails
    * for good stops the search. */
  function CostBody(s: string): (r: Res<(Option<Amount>, Option<Dates.Date>)>)
    ensures !r.Error?
    ensures r.Ok? ==> |r.rest| <= |s|
  {
    var ad := AmountThenDate(s);
    if ad.Ok? then Ok((Some(ad.value.0), Some(ad.value.1)), ad.rest) else
    if ad.Failure? then Failure else
    CostAfterPair(s)
  }

  /** The alternatives after the first one. */
  function CostAfterPair(s: string): (r: Res<(Option<Amount>, Option<Dates.Date>)>)
    ensures !r.Error?
    ensures r.Ok? ==> |r.rest| <= |s|
  {
    var da := DateThenAmount(s);
    if da.Ok? then Ok((Some(da.value.1), Some(da.value.0)), da.rest) else
    if da.Failure? then Failure else
    CostSingle(s)
  }

  /** The last three alternatives: an amount, a date, nothing. */
  function CostSingle(s: string): (r: Res<(Option<Amount>, Option<Dates.Date>)>)
    ensures !r.Error?
    ensures r.Ok? ==> |r.rest| <= |s|
  {
    var a := AmountParser.Parse(s);
    if a.Ok? then Ok((Some(a.value), None), a.rest) else
    var d := ParseDate(s);
    if d.Ok? then Ok((None, Some(d.value)), d.rest) else
    if d.Failure? then Failure else
    Ok((None, None), s)
  }

  /** `cost`: `{`, blanks, the body, blanks, `}`. */
  function ParseCost(s: string): (r: Res<Cost>)
    ensures r.Ok? ==> s != [] && s[0] == '{' && |r.rest| < |s|
  {
    var open := Char('{', s);
    if !open.Ok? then Error else
    var body := CostBody(Space0(open.rest));
    if !body.Ok? then Forward(body) else
    var close := Char('}', Space0(body.rest));
    if !close.Ok? then Error else Ok(Cost(body.value.0, body.value.1), close.rest)
  }

  /** `{}` and `{ }` give a cost with neither amount nor date. */
  lemma EmptyCost(gap: string, rest: string)
    requires forall i :: 0 <= i < |gap| ==> IsBlank(gap[i])
    ensures ParseCost("{" + (gap + ("}" + rest))) == Ok(Cost(None, None), rest)
  {
    var close := "}" + rest;
    assert CostBody(close) == Ok((None, None), close) && Space0(close) == close && close[0] == '}' by {
      EmptyBody(close, rest);
    }
    BracesOf(gap, close, (None, None), close, rest);
  }

  /** A body that starts at `}` reads nothing. */
  lemma EmptyBody(t: string, rest: string)
    requires t == "}" + rest
    ensures CostBody(t) == Ok((None, None), t)
    ensures Space0(t) == t
  {
    assert t[0] == '}';
    assert !AmountParser.Parse(t).Ok?;
    NoDateThenAmount(t);
    NoPair(t);
  }

  /** The braces around a body whose reading stops at blanks and `}`. */
  lemma BracesOf(gap: string, t: string, v: (Option<Amount>, Option<Dates.Date>), after: string, rest: string)
    requires forall i :: 0 <= i < |gap| ==> IsBlank(gap[i])
    requires t == [] || !IsBlank(t[0])
    requires CostBody(t) == Ok(v, after) && Space0(after) == "}" + rest
    ensures ParseCost("{" + (gap + t)) == Ok(Cost(v.0, v.1), rest)
  {
    var s := "{" + (gap + t);
    assert Char('{', s) == Ok('{', gap + t) by {
      assert s[1..] == gap + t;
    }
    assert Space0(gap + t) == t by {
      Space0OfBlanks(gap, t);
    }
    CostOf(s, gap + t, v, after, rest);
  }

  /** `cost` assembled from its three readings. */
  lemma CostOf(s: string, u: string, v: (Option<Amount>, Option<Dates.Date>), w: string, rest: string)
    requires Char('{', s) == Ok('{', u)
    requires CostBody(Space0(u)) == Ok(v, w)
    requires Char('}', Space0(w)) == Ok('}', rest)
    ensures ParseCost(s) == Ok(Cost(v.0, v.1), rest)
  {
  }

  /** An amount alone in the braces: `{` and blanks, an amount that is not a
    * date, blanks and `}`. */
  lemma AmountCost(gap: string, t: string, a: Amount, after: string, rest: string)
    requires !DateLike(t).Ok?
    requires forall i :: 0 <= i < |gap| ==> IsBlank(gap[i])
    requires AmountParser.Parse(t) == Ok(a, after) && Space0(after) == "}" + rest
    ensures ParseCost("{" + (gap + t)) == Ok(Cost(Some(a), None), rest)
  {
    assert CostBody(t) == Ok((Some(a), None), after) && t != [] && !IsBlank(t[0]) by {
      CostBodyAmount(t, a, after);
    }
    BracesOf(gap, t, (Some(a), None), after, rest);
  }

  lemma CostBodyAmount(t: string, a: Amount, after: string)
    requires !DateLike(t).Ok?
    requires AmountParser.Parse(t) == Ok(a, after)
    requires Space0(after) == [] || Space0(after)[0] != ','
    ensures t != [] && AmountParser.IsNumberChar(t[0])
    ensures CostBody(t) == Ok((Some(a), None), after)
  {
    assert CostBody(t) == CostAfterPair(t) by {
      NoAmountThenDate(t, a, after);
    }
    assert CostAfterPair(t) == CostSingle(t) by {
      NoDateThenAmount(t);
    }
    assert CostSingle(t) == Ok((Some(a), None), after) by {
      SingleAmount(t, a, after);
    }
    assert AmountParser.IsNumberChar(t[0]);
  }

  lemma SingleAmount(t: string, a: Amount, after: string)
    requires AmountParser.Parse(t) == Ok(a, after)
    ensures CostSingle(t) == Ok((Some(a), None), after)
  {
  }

  lemma NoAmountThenDate(t: string, a: Amount, after: string)
    requires AmountParser.Parse(t) == Ok(a, after)
    requires Space0(after) == [] || Space0(after)[0] != ','
    ensures AmountThenDate(t).Error?
  {
  }

  lemma NoDateThenAmount(t: string)
    requires !DateLike(t).Ok?
    ensures DateThenAmount(t).Error?
  {
  }

  /** A date alone in the braces. */
  lemma DateCost(gap: string, t: string, after: string, rest: string)
    requires forall i :: 0 <= i < |gap| ==> IsBlank(gap[i])
    requires Dates.Parse(t).Ok? && Dates.Parse(t).rest == after && Space0(after) == "}" + rest
    ensures ParseCost("{" + (gap + t)) == Ok(Cost(None, Some(Dates.Parse(t).value)), rest)
  {
    CostBodyDate(t, after);
    BracesOf(gap, t, (None, Some(Dates.Parse(t).value)), after, rest);
  }

  lemma CostBodyDate(t: string, after: string)
    requires Dates.Parse(t).Ok? && Dates.Parse(t).rest == after
    requires Space0(after) == [] || Space0(after)[0] != ','
    ensures t != [] && !IsBlank(t[0])
    ensures CostBody(t) == Ok((None, Some(Dates.Parse(t).value)), after)
  {
    assert t != [] && !IsBlank(t[0]) by {
      DateIsNoAmount(t);
    }
    assert CostBody(t) == CostSingle(t) by {
      DateIsNoAmount(t);
      DateWithoutAmount(t, after);
      NoPair(t);
    }
    assert CostSingle(t) == Ok((None, Some(Dates.Parse(t).value)), after) by {
      DateIsNoAmount(t);
      SingleDate(t);
    }
  }

  /** Without an amount and a date together, the body is a single one. */
  lemma NoPair(t: string)
    requires AmountThenDate(t).Error? && DateThenAmount(t).Error?
    ensures CostBody(t) == CostSingle(t)
  {
  }

  lemma SingleDate(t: string)
    requires Dates.Parse(t).Ok? && !AmountParser.Parse(t).Ok?
    ensures CostSingle(t) == Ok((None, Some(Dates.Parse(t).value)), Dates.Parse(t).rest)
  {
  }

  lemma DateIsNoAmount(t: string)
    requires Dates.Parse(t).Ok?
    ensures t != [] && IsDigit(t[0])
    ensures !AmountParser.Parse(t).Ok? && AmountThenDate(t).Error?
  {
    Dates.ParseSpec(t);
    assert t[0] == t[..4][0];
    DateNotAmount(t);
  }

  lemma DateWithoutAmount(t: string, after: string)
    requires Dates.Parse(t).Ok? && Dates.Parse(t).rest == after
    requires Space0(after) == [] || Space0(after)[0] != ','
    ensures DateThenAmount(t).Error?
  {
  }

  /** A date and an amount, in either order, separated by a comma. */
  lemma AmountDateCost(t: string, a: Amount, after: string, u: string)
    requires AmountParser.Parse(t) == Ok(a, after)
    requires Comma(after) == Ok(",", u) && Dates.Parse(u).Ok?
    ensures CostBody(t) == Ok((Some(a), Some(Dates.Parse(u).value)), Dates.Parse(u).rest)
  {
  }

  lemma DateAmountCost(t: string, after: string, u: string, a: Amount, rest: string)
    requires Dates.Parse(t).Ok? && Dates.Parse(t).rest == after
    requires Comma(after) == Ok(",", u) && AmountParser.Parse(u) == Ok(a, rest)
    ensures CostBody(t) == Ok((Some(a), Some(Dates.Parse(t).value)), rest)
  {
    Dates.ParseSpec(t);
    DateNotAmount(t);
  }

  /** A date is not an amount: its run of number characters has a `-` after
    * four digits, which the decimal type rejects. */
  lemma DateNotAmount(t: string)
    requires |t| >= 5 && AllDigits(t[..4]) && t[4] == '-'
    ensures !AmountParser.Parse(t).Ok?
  {
    assert forall i :: 0 <= i < 5 ==> AmountParser.IsNumberChar(t[i]) by {
      forall i | 0 <= i < 5 ensures AmountParser.IsNumberChar(t[i]) {
        if i < 4 { assert t[..4][i] == t[i]; }
      }
    }
    var n := SpanOf(AmountParser.IsNumberChar, t);
    assert n >= 5;
    var v := t[..n];
    assert v[0] == t[..4][0];
    forall i | 0 <= i < 4 ensures IsDigit(v[i]) { assert v[i] == t[..4][i]; }
    SpanOfUnique(IsDigit, v, 4);
    assert v[4..][0] == '-';
    assert Decimals.FromStr(v).None?;
  }

  // -------------------------------------------------------------------- price

  /** A price marker, blanks, an amount. */
  function PricedBy(marker: string, s: string): (r: Res<Amount>)
    ensures !r.Failure?
    ensures r.Ok? ==> |r.rest| < |s|
    ensures r.Ok? ==> |s| > |marker| && s[..|marker|] == marker && IsBlank(s[|marker|])
  {
    var m := Tag(marker, s);
    if !m.Ok? then Error else
    var gap := Space1(m.rest);
    if !gap.Ok? then Error else
    var a := AmountParser.Parse(gap.rest);
    if !a.Ok? then Error else Ok(a.value, a.rest)
  }

  /** `alt(('@' blanks amount -> Unit, '@@' blanks amount -> Total))`. */
  function ParsePrice(s: string): (r: Res<PostingPrice>)
    ensures !r.Failure?
    ensures r.Ok? ==> |r.rest| < |s| && s[0] == '@'
  {
    var unit := PricedBy("@", s);
    if unit.Ok? then Ok(Unit(unit.value), unit.rest) else
    var total := PricedBy("@@", s);
    if total.Ok? then Ok(Total(total.value), total.rest) else Error
  }

  lemma PricedByOf(marker: string, gap: string, t: string, a: Amount, rest: string)
    requires gap != [] && forall i :: 0 <= i < |gap| ==> IsBlank(gap[i])
    requires AmountParser.Parse(t) == Ok(a, rest)
    ensures PricedBy(marker, marker + (gap + t)) == Ok(a, rest)
  {
    MarkerThenGap(marker, gap, t);
  }

  lemma MarkerThenGap(marker: string, gap: string, t: string)
    requires gap != [] && forall i :: 0 <= i < |gap| ==> IsBlank(gap[i])
    requires t != [] && AmountParser.IsNumberChar(t[0])
    ensures Tag(marker, marker + (gap + t)) == Ok(marker, gap + t)
    ensures Space1(gap + t) == Ok(gap, t)
  {
    assert (marker + (gap + t))[..|marker|] == marker;
    assert (marker + (gap + t))[|marker|..] == gap + t;
    Space0OfBlanks(gap, t);
    assert (gap + t)[0] == gap[0];
  }

  /** `@` then blanks then an amount is a unit price. */
  lemma UnitPriceOf(gap: string, t: string, a: Amount, rest: string)
    requires gap != [] && forall i :: 0 <= i < |gap| ==> IsBlank(gap[i])
    requires AmountParser.Parse(t) == Ok(a, rest)
    ensures ParsePrice("@" + (gap + t)) == Ok(Unit(a), rest)
  {
    PricedByOf("@", gap, t, a, rest);
  }

  /** `@@` then blanks then an amount is a total price. */
  lemma TotalPriceOf(gap: string, t: string, a: Amount, rest: string)
    requires gap != [] && forall i :: 0 <= i < |gap| ==> IsBlank(gap[i])
    requires AmountParser.Parse(t) == Ok(a, rest)
    ensures ParsePrice("@@" + (gap + t)) == Ok(Total(a), rest)
  {
    PricedByOf("@@", gap, t, a, rest);
    NotUnit(gap + t);
  }

  lemma NotUnit(u: string)
    ensures PricedBy("@", "@@" + u).Error?
  {
    assert ("@@" + u)[..1] == "@" && ("@@" + u)[1..] == "@" + u;
  }

  /** Without a blank after `@` there is no price. */
  lemma PriceNeedsBlank(c: char, rest: string)
    requires !IsBlank(c) && c != '@'
    ensures ParsePrice("@" + ([c] + rest)).Error?
  {
    var s := "@" + ([c] + rest);
    assert s[..1] == "@" && s[1..] == [c] + rest;
    assert s[..2] != "@@" by { assert s[1] == c; }
  }

  // ------------------------------------------------------------------ posting

  /** `opt(preceded(space1, cost))`: a cost behind blanks, if one starts
    * there; a cost that fails for good fails the posting. */
  function OptionalCost(s: string): (r: Res<Option<Cost>>)
    ensures !r.Error?
    ensures r.Ok? ==> |r.rest| <= |s|
    ensures r.Ok? && r.value.None? ==> r.rest == s
  {
    var gap := Space1(s);
    var c := if gap.Ok? then ParseCost(gap.rest) else Error;
    if c.Failure? then Failure
    else if c.Ok? then Ok(Some(c.value), c.rest)
    else Ok(None, s)
  }

  /** `opt(preceded(space1, alt((unit, total))))`: a price behind blanks, if
    * one starts there. */
  function OptionalPrice(s: string): (r: (Option<PostingPrice>, string))
    ensures |r.1| <= |s|
    ensures r.0.None? ==> r.1 == s
  {
    var gap := Space1(s);
    var p := if gap.Ok? then ParsePrice(gap.rest) else Error;
    if p.Ok? then (Some(p.value), p.rest) else (None, s)
  }

  /** The optional part after the account: blanks and an amount, then
    * optionally blanks and a cost, then optionally blanks and a price. */
  function Amounts(s: string): (r: Res<(Amount, Option<Cost>, Option<PostingPrice>)>)
    ensures r.Ok? ==> |r.rest| < |s|
  {
    var gap := Space1(s);
    if !gap.Ok? then Error else
    var a := AmountParser.Parse(gap.rest);
    if !a.Ok? then Error else
    var c := OptionalCost(a.rest);
    if !c.Ok? then Failure else
    var (price, afterPrice) := OptionalPrice(c.rest);
    Ok((a.value, c.value, price), afterPrice)
  }

  /** `posting` after its leading blanks and optional flag: the account, the
    * optional amounts, the end of the line. */
  function PostingFrom(scan: External.Scanner, flag: Option<Flag>, s: string): (r: Res<Posting>)
    ensures r.Ok? ==> |r.rest| <= |s|
    ensures r.Ok? ==> r.value.flag == flag
    ensures r.Ok? ==> r.value.amount.None? ==> r.value.cost.None? && r.value.price.None?
  {
    var account := External.Run(scan, s);
    if !account.Ok? then Forward(account) else
    var amounts := Amounts(account.rest);
    if amounts.Failure? then Failure else
    var (amount, cost, price, rest) :=
      if amounts.Ok? then (Some(amounts.value.0), amounts.value.1, amounts.value.2, amounts.rest)
      else (None, None, None, account.rest);
    var end := LibLexer.EndOfLine(rest);
    if !end.Ok? then Error else Ok(Posting(flag, account.value, amount, cost, price), end.rest)
  }

  /** `posting`: blanks, an optional flag that must be followed by a blank,
    * and the rest of the posting. */
  function ParsePosting(scan: External.Scanner, s: string): (r: Res<Posting>)
    ensures r.Ok? ==> s != [] && IsBlank(s[0]) && |r.rest| < |s|
  {
    var gap := Space1(s);
    if !gap.Ok? then Error else
    var f := ParseFlag(gap.rest);
    var fgap := if f.Ok? then Space1(f.rest) else Error;
    if fgap.Ok? then PostingFrom(scan, Some(f.value), fgap.rest)
    else PostingFrom(scan, None, gap.rest)
  }

  /** A flag followed by a blank is the posting's flag. */
  lemma PostingFlag(scan: External.Scanner, gap: string, f: Flag, gap2: string, after: string)
    requires gap != [] && forall i :: 0 <= i < |gap| ==> IsBlank(gap[i])
    requires gap2 != [] && forall i :: 0 <= i < |gap2| ==> IsBlank(gap2[i])
    requires after == [] || !IsBlank(after[0])
    ensures ParsePosting(scan, gap + ([ToChar(f)] + (gap2 + after))) == PostingFrom(scan, Some(f), after)
  {
    var t := [ToChar(f)] + (gap2 + after);
    FlagReadings(gap, f, gap2, after);
    FlaggedPostingOf(scan, gap + t, t, f, gap2 + after, after);
  }

  /** The blanks, the flag and the blanks before a flagged posting's account. */
  lemma FlagReadings(gap: string, f: Flag, gap2: string, after: string)
    requires gap != [] && forall i :: 0 <= i < |gap| ==> IsBlank(gap[i])
    requires gap2 != [] && forall i :: 0 <= i < |gap2| ==> IsBlank(gap2[i])
    requires after == [] || !IsBlank(after[0])
    ensures Space1(gap + ([ToChar(f)] + (gap2 + after))) == Ok(gap, [ToChar(f)] + (gap2 + after))
    ensures ParseFlag([ToChar(f)] + (gap2 + after)) == Ok(f, gap2 + after)
    ensures Space1(gap2 + after) == Ok(gap2, after)
  {
    var t := [ToChar(f)] + (gap2 + after);
    Space1OfBlanks(gap, t);
    assert t[1..] == gap2 + after;
    Space1OfBlanks(gap2, after);
  }

  /** `posting` with a flag, assembled from its readings. */
  lemma FlaggedPostingOf(scan: External.Scanner, s: string, t: string, f: Flag, u: string, after: string)
    requires Space1(s).Ok? && Space1(s).rest == t
    requires ParseFlag(t) == Ok(f, u)
    requires Space1(u).Ok? && Space1(u).rest == after
    ensures ParsePosting(scan, s) == PostingFrom(scan, Some(f), after)
  {
  }

  /** A flag not followed by a blank is not a flag: the account scanner is
    * handed the flag character. */
  lemma PostingFlagNeedsBlank(scan: External.Scanner, gap: string, f: Flag, after: string)
    requires gap != [] && forall i :: 0 <= i < |gap| ==> IsBlank(gap[i])
    requires after == [] || !IsBlank(after[0])
    ensures ParsePosting(scan, gap + ([ToChar(f)] + after)) == PostingFrom(scan, None, [ToChar(f)] + after)
  {
    var t := [ToChar(f)] + after;
    Space0OfBlanks(gap, t);
    assert (gap + t)[0] == gap[0];
    assert t[1..] == after;
  }

  /** A price is only read after an amount: an account followed by `@` is
    * not a posting. */
  lemma PriceNeedsAmount(scan: External.Scanner, account: string, gap: string, rest: string)
    requires scan(account + (gap + ("@" + rest))) == External.Matched(|account|)
    requires forall i :: 0 <= i < |gap| ==> IsBlank(gap[i])
    ensures PostingFrom(scan, None, account + (gap + ("@" + rest))).Error?
  {
    External.RunMatched(scan, account, gap + ("@" + rest));
    NothingBeforeAt(gap, rest);
  }

  lemma NothingBeforeAt(gap: string, rest: string)
    requires forall i :: 0 <= i < |gap| ==> IsBlank(gap[i])
    ensures Amounts(gap + ("@" + rest)).Error?
    ensures LibLexer.EndOfLine(gap + ("@" + rest)).Error?
  {
    NoAmountsBeforeAt(gap, rest);
    EndOfLineAt(gap, rest);
  }

  lemma EndOfLineAt(gap: string, rest: string)
    requires forall i :: 0 <= i < |gap| ==> IsBlank(gap[i])
    ensures LibLexer.EndOfLine(gap + ("@" + rest)).Error?
  {
    LibLexer.EndOfLineRejects(gap, '@', rest);
    assert gap + ['@'] + rest == gap + ("@" + rest);
  }

  lemma NoAmountsBeforeAt(gap: string, rest: string)
    requires forall i :: 0 <= i < |gap| ==> IsBlank(gap[i])
    ensures Amounts(gap + ("@" + rest)).Error?
  {
    var after := gap + ("@" + rest);
    if gap != [] {
      assert Space1(after).Ok? && Space1(after).rest == "@" + rest by {
        Space0OfBlanks(gap, "@" + rest);
        assert after[0] == gap[0];
      }
    } else {
      assert after == "@" + rest;
    }
    AmountsNeedAmount(after);
  }

  /** No amounts where no amount follows the first blanks. */
  lemma AmountsNeedAmount(s: string)
    requires Space1(s).Ok? ==> Space1(s).rest == [] || !AmountParser.IsNumberChar(Space1(s).rest[0])
    ensures Amounts(s).Error?
  {
  }

  /** A cost behind blanks is read, with what follows it left. */
  lemma CostBehind(g: string, t: string, c: Cost, rest: string)
    requires g != [] && forall i :: 0 <= i < |g| ==> IsBlank(g[i])
    requires ParseCost(t) == Ok(c, rest)
    ensures OptionalCost(g + t) == Ok(Some(c), rest)
  {
    Space1OfBlanks(g, t);
  }

  /** Where no blanks and `{` follow, there is no cost and nothing is read. */
  lemma NoCostBehind(s: string)
    requires Space1(s).Ok? ==> Space1(s).rest == [] || Space1(s).rest[0] != '{'
    ensures OptionalCost(s) == Ok(None, s)
  {
  }

  /** Blanks before a price are no cost. */
  lemma NoCostBeforePrice(g: string, t: string)
    requires g != [] && forall i :: 0 <= i < |g| ==> IsBlank(g[i])
    requires t != [] && t[0] == '@'
    ensures OptionalCost(g + t) == Ok(None, g + t)
  {
    Space0OfBlanks(g, t);
    assert (g + t)[0] == g[0];
    NoCostBehind(g + t);
  }

  /** A price behind blanks is read, with what follows it left. */
  lemma PriceBehind(g: string, t: string, p: PostingPrice, rest: string)
    requires g != [] && forall i :: 0 <= i < |g| ==> IsBlank(g[i])
    requires ParsePrice(t) == Ok(p, rest)
    ensures OptionalPrice(g + t) == (Some(p), rest)
  {
    Space1OfBlanks(g, t);
  }

  /** Where no blanks and a price follow, there is no price and nothing is
    * read. */
  lemma NoPriceBehind(s: string)
    requires Space1(s).Ok? ==> !ParsePrice(Space1(s).rest).Ok?
    ensures OptionalPrice(s) == (None, s)
  {
  }

  /** The amount, cost and price readings make up `Amounts`. */
  lemma AmountsSteps(s: string, t1: string, a: Amount, u: string, c: Option<Cost>, v: string,
                     p: Option<PostingPrice>, rest: string)
    requires Space1(s).Ok? && Space1(s).rest == t1
    requires AmountParser.Parse(t1) == Ok(a, u)
    requires OptionalCost(u) == Ok(c, v)
    requires OptionalPrice(v) == (p, rest)
    ensures Amounts(s) == Ok((a, c, p), rest)
  {
  }

  /** Blanks before an amount are skipped by `space1`. */
  lemma AmountBehind(g: string, t: string)
    requires g != [] && forall i :: 0 <= i < |g| ==> IsBlank(g[i])
    requires t != [] && AmountParser.IsNumberChar(t[0])
    ensures Space1(g + t).Ok? && Space1(g + t).rest == t
  {
    Space0OfBlanks(g, t);
    assert (g + t)[0] == g[0];
  }

  /** Blanks and an amount, then behind blanks a cost, then behind blanks a
    * price: all three are read, and what follows the price is left. */
  lemma AmountsOf(g1: string, t1: string, a: Amount, g2: string, t2: string, c: Cost,
                  g3: string, t3: string, p: PostingPrice, rest: string)
    requires g1 != [] && forall i :: 0 <= i < |g1| ==> IsBlank(g1[i])
    requires g2 != [] && forall i :: 0 <= i < |g2| ==> IsBlank(g2[i])
    requires g3 != [] && forall i :: 0 <= i < |g3| ==> IsBlank(g3[i])
    requires AmountParser.Parse(t1) == Ok(a, g2 + t2)
    requires ParseCost(t2) == Ok(c, g3 + t3)
    requires ParsePrice(t3) == Ok(p, rest)
    ensures Amounts(g1 + t1) == Ok((a, Some(c), Some(p)), rest)
  {
    CostBehind(g2, t2, c, g3 + t3);
    PriceBehind(g3, t3, p, rest);
    AmountBehind(g1, t1);
    AmountsSteps(g1 + t1, t1, a, g2 + t2, Some(c), g3 + t3, Some(p), rest);
  }

  /** Blanks and an amount with a price behind blanks but no cost. */
  lemma AmountAndPrice(g1: string, t1: string, a: Amount, g3: string, t3: string, p: PostingPrice, rest: string)
    requires g1 != [] && forall i :: 0 <= i < |g1| ==> IsBlank(g1[i])
    requires g3 != [] && forall i :: 0 <= i < |g3| ==> IsBlank(g3[i])
    requires AmountParser.Parse(t1) == Ok(a, g3 + t3)
    requires ParsePrice(t3) == Ok(p, rest)
    ensures Amounts(g1 + t1) == Ok((a, None, Some(p)), rest)
  {
    NoCostBeforePrice(g3, t3);
    PriceBehind(g3, t3, p, rest);
    AmountBehind(g1, t1);
    AmountsSteps(g1 + t1, t1, a, g3 + t3, None, g3 + t3, Some(p), rest);
  }

  /** Blanks and an amount followed by anything but blanks: neither a cost nor
    * a price. */
  lemma AmountAlone(g1: string, t1: string, a: Amount, rest: string)
    requires g1 != [] && forall i :: 0 <= i < |g1| ==> IsBlank(g1[i])
    requires AmountParser.Parse(t1) == Ok(a, rest)
    requires rest == [] || !IsBlank(rest[0])
    ensures Amounts(g1 + t1) == Ok((a, None, None), rest)
  {
    NoCostBehind(rest);
    NoPriceBehind(rest);
    AmountBehind(g1, t1);
    AmountsSteps(g1 + t1, t1, a, rest, None, rest, None, rest);
  }

  /** An account the scanner matches, then the amounts and the end of the
    * line: the posting holds exactly that account, amount, cost and price. */
  lemma PostingOf(scan: External.Scanner, flag: Option<Flag>, account: string, u: string,
                  a: Amount, c: Option<Cost>, p: Option<PostingPrice>, e: string, rest: string)
    requires scan(account + u) == External.Matched(|account|)
    requires Amounts(u) == Ok((a, c, p), e)
    requires LibLexer.EndOfLine(e) == Ok((), rest)
    ensures PostingFrom(scan, flag, account + u) == Ok(Posting(flag, account, Some(a), c, p), rest)
  {
    External.RunMatched(scan, account, u);
  }

  /** An account with no amount after it, then the end of the line: a posting
    * of that account alone. */
  lemma AccountPostingOf(scan: External.Scanner, flag: Option<Flag>, account: string, u: string, rest: string)
    requires scan(account + u) == External.Matched(|account|)
    requires Amounts(u).Error?
    requires LibLexer.EndOfLine(u) == Ok((), rest)
    ensures PostingFrom(scan, flag, account + u) == Ok(Posting(flag, account, None, None, None), rest)
  {
    External.RunMatched(scan, account, u);
  }

  /** Blanks before anything but a flag: the posting has no flag. */
  lemma UnflaggedPosting(scan: External.Scanner, gap: string, after: string)
    requires gap != [] && forall i :: 0 <= i < |gap| ==> IsBlank(gap[i])
    requires after == [] || (!IsBlank(after[0]) && after[0] != '*' && after[0] != '!')
    ensures ParsePosting(scan, gap + after) == PostingFrom(scan, None, after)
  {
    Space1OfBlanks(gap, after);
  }

  /** An indented posting line with an account, an amount, a cost amount in
    * braces and a unit price, as in `  Assets:Cash 1 CHF {2 PLN} @ 3 EUR`:
    * the posting has no flag and holds exactly that account, amount, cost
    * and price. */
  lemma PostingWithCostAndUnitPrice(scan: External.Scanner, gap: string, account: string,
                                    g1: string, t1: string, a: Amount, g2: string, cg: string, ct: string,
                                    c: Amount, ce: string, g3: string, pg: string, pt: string, p: Amount,
                                    e: string, rest: string)
    requires gap != [] && forall i :: 0 <= i < |gap| ==> IsBlank(gap[i])
    requires g1 != [] && forall i :: 0 <= i < |g1| ==> IsBlank(g1[i])
    requires g2 != [] && forall i :: 0 <= i < |g2| ==> IsBlank(g2[i])
    requires g3 != [] && forall i :: 0 <= i < |g3| ==> IsBlank(g3[i])
    requires pg != [] && forall i :: 0 <= i < |pg| ==> IsBlank(pg[i])
    requires forall i :: 0 <= i < |cg| ==> IsBlank(cg[i])
    requires account != [] && !IsBlank(account[0]) && account[0] != '*' && account[0] != '!'
    requires scan(account + (g1 + t1)) == External.Matched(|account|)
    requires AmountParser.Parse(t1) == Ok(a, g2 + ("{" + (cg + ct)))
    requires !DateLike(ct).Ok? && AmountParser.Parse(ct) == Ok(c, ce)
    requires Space0(ce) == "}" + (g3 + ("@" + (pg + pt)))
    requires AmountParser.Parse(pt) == Ok(p, e)
    requires LibLexer.EndOfLine(e) == Ok((), rest)
    ensures ParsePosting(scan, gap + (account + (g1 + t1))) ==
            Ok(Posting(None, account, Some(a), Some(Cost(Some(c), None)), Some(Unit(p))), rest)
  {
    var t3 := "@" + (pg + pt);
    assert ParseCost("{" + (cg + ct)) == Ok(Cost(Some(c), None), g3 + t3) by {
      AmountCost(cg, ct, c, ce, g3 + t3);
    }
    assert ParsePrice(t3) == Ok(Unit(p), e) by {
      UnitPriceOf(pg, pt, p, e);
    }
    assert Amounts(g1 + t1) == Ok((a, Some(Cost(Some(c), None)), Some(Unit(p))), e) by {
      AmountsOf(g1, t1, a, g2, "{" + (cg + ct), Cost(Some(c), None), g3, t3, Unit(p), e);
    }
    assert PostingFrom(scan, None, account + (g1 + t1)) ==
           Ok(Posting(None, account, Some(a), Some(Cost(Some(c), None)), Some(Unit(p))), rest) by {
      PostingOf(scan, None, account, g1 + t1, a, Some(Cost(Some(c), None)), Some(Unit(p)), e, rest);
    }
    assert (account + (g1 + t1))[0] == account[0];
    UnflaggedPosting(scan, gap, account + (g1 + t1));
  }

  /** `many0(posting)`: postings until the first line that is not one; a
    * posting that fails for good fails the whole list. */
  function Postings(scan: External.Scanner, s: string): (r: Res<seq<Posting>>)
    ensures !r.Error?
    ensures r.Ok? ==> |r.rest| <= |s|
    ensures r.Ok? ==> ParsePosting(scan, r.rest).Error?
    ensures ParsePosting(scan, s).Failure? ==> r.Failure?
    ensures ParsePosting(scan, s).Error? ==> r == Ok([], s)
    ensures r.Ok? && ParsePosting(scan, s).Ok? ==>
              r.value != [] && r.value[0] == ParsePosting(scan, s).value &&
              Postings(scan, ParsePosting(scan, s).rest) == Ok(r.value[1..], r.rest)
    decreases |s|
  {
    var p := ParsePosting(scan, s);
    if p.Failure? then Failure else
    if p.Error? then Ok([], s) else
    var more := Postings(scan, p.rest);
    if !more.Ok? then Failure else Ok([p.value] + more.value, more.rest)
  }

  // -------------------------------------------------------------- transaction

  /** `do_parse`: the header after the flag, its end of line, the metadata and
    * the postings. */
  function DoParse(scan: External.Scanner, flag: Option<Flag>, s: string): (r: Res<(Transaction, map<string, Metadata.Value>)>)
    ensures r.Ok? ==> |r.rest| <= |s|
    ensures r.Ok? ==> r.value.0.flag == flag
  {
    var gap := Space1(s);
    var pn := if gap.Ok? then PayeeAndNarration(gap.rest) else Error;
    var (payee, narration, afterPn) :=
      if pn.Ok? then (pn.value.0, Some(pn.value.1), pn.rest) else (None, None, s);
    var tags := Tags(afterPn);
    var end := LibLexer.EndOfLine(tags.rest);
    if !end.Ok? then Error else
    var meta := Metadata.Parse(end.rest);
    var postings := Postings(scan, meta.rest);
    if !postings.Ok? then Forward(postings) else
    Ok((Transaction(flag, payee, narration, tags.value, postings.value), meta.value), postings.rest)
  }

  /** `parse`: the flag or `txn`, then the rest, committed. */
  function Parse(scan: External.Scanner, s: string): (r: Res<(Transaction, map<string, Metadata.Value>)>)
    ensures r.Error? <==> HeaderFlag(s).Error?
    ensures r.Ok? ==> |r.rest| < |s| && r.value.0.flag == HeaderFlag(s).value
    ensures r.Ok? ==> s != [] && (s[0] == '*' || s[0] == '!' || s[0] == 't')
  {
    var f := HeaderFlag(s);
    if !f.Ok? then Forward(f) else Cut(DoParse(scan, f.value, f.rest))
  }

  /** The readings of the header, the end of its line, the metadata and the
    * postings make up `do_parse`. */
  lemma DoParseSteps(scan: External.Scanner, flag: Option<Flag>, s: string, u: string,
                     payee: Option<string>, narration: string, t: string, tags: set<string>, e: string,
                     m: string, meta: map<string, Metadata.Value>, ps: string, postings: seq<Posting>, rest: string)
    requires Space1(s).Ok? && Space1(s).rest == u
    requires PayeeAndNarration(u) == Ok((payee, narration), t)
    requires Tags(t) == Ok(tags, e)
    requires LibLexer.EndOfLine(e) == Ok((), m)
    requires Metadata.Parse(m) == Ok(meta, ps)
    requires Postings(scan, ps) == Ok(postings, rest)
    ensures DoParse(scan, flag, s) == Ok((Transaction(flag, payee, Some(narration), tags, postings), meta), rest)
  {
  }

  /** Blanks before a quoted string are skipped by `space1`. */
  lemma StringBehind(g: string, u: string)
    requires g != [] && forall i :: 0 <= i < |g| ==> IsBlank(g[i])
    requires u != [] && u[0] == '"'
    ensures Space1(g + u).Ok? && Space1(g + u).rest == u
  {
    Space0OfBlanks(g, u);
    assert (g + u)[0] == g[0];
  }

  /** Blanks, the payee and narration, the tags, the end of the line, the
    * metadata and the postings: the transaction holds exactly that payee,
    * narration, set of tags and list of postings, with that metadata. */
  lemma DoParseOf(scan: External.Scanner, flag: Option<Flag>, g: string, u: string,
                  payee: Option<string>, narration: string, t: string, tags: set<string>, e: string,
                  m: string, meta: map<string, Metadata.Value>, ps: string, postings: seq<Posting>, rest: string)
    requires g != [] && forall i :: 0 <= i < |g| ==> IsBlank(g[i])
    requires PayeeAndNarration(u) == Ok((payee, narration), t)
    requires Tags(t) == Ok(tags, e)
    requires LibLexer.EndOfLine(e) == Ok((), m)
    requires Metadata.Parse(m) == Ok(meta, ps)
    requires Postings(scan, ps) == Ok(postings, rest)
    ensures DoParse(scan, flag, g + u) == Ok((Transaction(flag, payee, Some(narration), tags, postings), meta), rest)
  {
    StringBehind(g, u);
    DoParseSteps(scan, flag, g + u, u, payee, narration, t, tags, e, m, meta, ps, postings, rest);
  }

  /** Without a description after the flag, the transaction has neither payee
    * nor narration; the tags, metadata and postings are read as before. */
  lemma DoParseWithoutDescription(scan: External.Scanner, flag: Option<Flag>, s: string,
                                  tags: set<string>, e: string, m: string, meta: map<string, Metadata.Value>,
                                  ps: string, postings: seq<Posting>, rest: string)
    requires Space1(s).Ok? ==> PayeeAndNarration(Space1(s).rest).Error?
    requires Tags(s) == Ok(tags, e)
    requires LibLexer.EndOfLine(e) == Ok((), m)
    requires Metadata.Parse(m) == Ok(meta, ps)
    requires Postings(scan, ps) == Ok(postings, rest)
    ensures DoParse(scan, flag, s) == Ok((Transaction(flag, None, None, tags, postings), meta), rest)
  {
  }

  /** A header line written with a payee, a narration and tags, then the
    * metadata and the postings: the transaction holds the payee and the
    * narration written and the set of the tag names written. */
  lemma WrittenTransaction(scan: External.Scanner, flag: Option<Flag>, g: string, p: string, gap: string,
                           n: string, names: seq<string>, ending: string, m: string,
                           meta: map<string, Metadata.Value>, ps: string, postings: seq<Posting>, rest: string)
    requires g != [] && forall i :: 0 <= i < |g| ==> IsBlank(g[i])
    requires gap != [] && forall i :: 0 <= i < |gap| ==> IsBlank(gap[i])
    requires LibLexer.AllPlain(p) && LibLexer.AllPlain(n)
    requires TagNames(names)
    requires ending == "\n" || ending == "\r\n"
    requires Metadata.Parse(m) == Ok(meta, ps)
    requires Postings(scan, ps) == Ok(postings, rest)
    ensures DoParse(scan, flag, g + ("\"" + p + "\"" + (gap + ("\"" + n + "\"" + TagsText(names, ending + m))))) ==
            Ok((Transaction(flag, Some(p), Some(n), set i | 0 <= i < |names| :: names[i], postings), meta), rest)
  {
    var t := TagsText(names, ending + m);
    var u := "\"" + p + "\"" + (gap + ("\"" + n + "\"" + t));
    var tags := set i | 0 <= i < |names| :: names[i];
    assert PayeeAndNarration(u) == Ok((Some(p), n), t) by {
      PayeeThenNarration(p, gap, n, t);
    }
    LineEndAlone(ending, m);
    assert Tags(t) == Ok(tags, ending + m) by {
      LineBreakStopsTags(ending + m);
      TagsOf(names, ending + m);
    }
    DoParseOf(scan, flag, g, u, Some(p), n, t, tags, ending + m, m, meta, ps, postings, rest);
  }

  predicate LineBreakFirst(x: string) { x != [] && IsLineBreak(x[0]) }

  /** A line break is not in a tag and stops the tags. */
  lemma LineBreakStopsTags(x: string)
    requires LineBreakFirst(x)
    ensures !IsTagChar(x[0]) && !IsBlank(x[0])
  {
  }

  /** A line ending alone ends the line. */
  lemma LineEndAlone(ending: string, m: string)
    requires ending == "\n" || ending == "\r\n"
    ensures LibLexer.EndOfLine(ending + m) == Ok((), m)
    ensures LineBreakFirst(ending + m)
  {
    assert (ending + m)[0] == ending[0];
    var none: string := [];
    assert none + none + ending + m == ending + m;
    LibLexer.EndOfLineOf(none, none, ending, m);
  }

  /** The text of a header's first step: the flag, or `txn` for none. */
  function FlagText(flag: Option<Flag>): string {
    if flag.Some? then [ToChar(flag.value)] else "txn"
  }

  /** `parse` reads the flag or `txn` written and hands the rest to
    * `do_parse`, committed. */
  lemma ParseOf(scan: External.Scanner, flag: Option<Flag>, u: string)
    ensures Parse(scan, FlagText(flag) + u) == Cut(DoParse(scan, flag, u))
  {
    if flag.Some? {
      FlagRoundTrip(flag.value, u);
    } else {
      TxnHasNoFlag(u);
    }
  }

  /** Once a flag or `txn` starts the text, a mismatch later on is a committed
    * failure: the text is a broken transaction, not something else. */
  lemma CommittedAfterFlag(scan: External.Scanner, f: Flag, rest: string)
    ensures !Parse(scan, [ToChar(f)] + rest).Error?
  {
    FlagRoundTrip(f, rest);
  }
}
