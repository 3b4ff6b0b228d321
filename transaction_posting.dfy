/**
 * src/transaction/posting.rs: a posting line of the newer transaction
 * grammar.  After an optional flag come the account and then, each optional
 * and in this order, an amount, a lot in braces, a price and a comment.
 */
module TransactionPostings {
  import opened Nom
  import Accounts
  import ExprAmount
  import AmountExpression
  import ParserDates
  import Strings
  import opened TransactionFlag

  /** Per-unit (`@`) or total (`@@`) price. */
  datatype PriceType = Unit | Total

  /** What the braces say about the lot; each attribute is optional. */
  datatype LotAttributes = LotAttributes(cost: Option<ExprAmount.Amount>, date: Option<ParserDates.Date>, lotLabel: Option<string>)

  datatype LotAttribute = CostOf(amount: ExprAmount.Amount) | DateOf(date: ParserDates.Date) | LabelOf(text: string)

  datatype Posting = Posting(flag: Option<Flag>, account: Accounts.Account, amount: Option<ExprAmount.Amount>,
                             price: Option<(PriceType, ExprAmount.Amount)>, lot: Option<LotAttributes>,
                             comment: Option<string>)

  /** `Posting::cost`: the cost recorded in the lot, when there is a lot. */
  function Cost(p: Posting): Option<ExprAmount.Amount> {
    if p.lot.Some? then p.lot.value.cost else None
  }

  // ------------------------------------------------------------------- lots

  /** One attribute: an amount, else a date, else a quoted label. */
  function ParseAttribute(s: string): (r: Res<LotAttribute>)
    ensures !r.Failure?
    ensures r.Ok? ==> |r.rest| < |s|
  {
    var a := ExprAmount.ParseAmount(s);
    if a.Ok? then Ok(CostOf(a.value), a.rest) else
    var d := ParserDates.ParseDate(s);
    if d.Ok? then Ok(DateOf(d.value), d.rest) else
    var l := Strings.QuotedString(s);
    if l.Ok? then Ok(LabelOf(l.value), l.rest) else Error
  }

  /** The separator: blanks, `,`, blanks. */
  function Separator(s: string): (r: Res<char>)
    ensures !r.Failure?
    ensures r.Ok? ==> |r.rest| < |s|
  {
    var c := Char(',', Space0(s));
    if !c.Ok? then Error else Ok(',', Space0(c.rest))
  }

  /** An item parser that never grows the input. */
  ghost predicate Shrinks<T>(item: string -> Res<T>) {
    forall x :: item(x).Ok? ==> |item(x).rest| <= |x|
  }

  /** The items after the first, each behind a separator; a separator not
    * followed by an item is left in the input. */
  function SeparatedMore<T>(item: string -> Res<T>, s: string): (r: (seq<T>, string))
    requires Shrinks(item)
    ensures |r.1| <= |s|
    decreases |s|
  {
    var sep := Separator(s);
    if !sep.Ok? then ([], s) else
    var a := item(sep.rest);
    if !a.Ok? then ([], s) else
    var more := SeparatedMore(item, a.rest);
    ([a.value] + more.0, more.1)
  }

  /** `separated_list0` with the lot separator: possibly no item at all. */
  function SeparatedList<T>(item: string -> Res<T>, s: string): (r: (seq<T>, string))
    requires Shrinks(item)
    ensures |r.1| <= |s|
    ensures r.0 == [] ==> r.1 == s
  {
    var a := item(s);
    if !a.Ok? then ([], s) else
    var more := SeparatedMore(item, a.rest);
    ([a.value] + more.0, more.1)
  }

  /** Records one attribute, replacing an earlier one of the same kind. */
  function Apply(acc: LotAttributes, attr: LotAttribute): LotAttributes {
    match attr
    case CostOf(c) => acc.(cost := Some(c))
    case DateOf(d) => acc.(date := Some(d))
    case LabelOf(l) => acc.(lotLabel := Some(l))
  }

  /** The fold over the attributes in order, starting from none. */
  function Fold(attrs: seq<LotAttribute>): LotAttributes {
    if attrs == [] then LotAttributes(None, None, None)
    else Apply(Fold(attrs[..|attrs| - 1]), attrs[|attrs| - 1])
  }

  /** `lot_attributes`: the list folded into one record; it cannot fail. */
  function ParseLotAttributes(s: string): (r: Res<LotAttributes>)
    ensures r.Ok? && |r.rest| <= |s|
  {
    var (attrs, rest) := SeparatedList(ParseAttribute, s);
    Ok(Fold(attrs), rest)
  }

  /** The lot: `{` and blanks, the attributes, blanks and `}`. */
  function ParseLot(s: string): (r: Res<LotAttributes>)
    ensures !r.Failure?
    ensures r.Ok? ==> |r.rest| < |s|
  {
    var open := Char('{', s);
    if !open.Ok? then Error else
    var attrs := ParseLotAttributes(Space0(open.rest));
    var close := Char('}', Space0(attrs.rest));
    if !close.Ok? then Error else Ok(attrs.value, close.rest)
  }

  // ------------------------------------------------------------------ price

  /** `@@` is tried first and gives a total price; a single `@` gives a
    * per-unit price. */
  function PriceKind(s: string): (r: Res<PriceType>)
    ensures !r.Failure?
    ensures r.Ok? <==> s != [] && s[0] == '@'
    ensures r.Ok? ==> (r.value == Total <==> |s| >= 2 && s[1] == '@')
    ensures r.Ok? ==> r.rest == if r.value == Total then s[2..] else s[1..]
  {
    var total := Tag("@@", s);
    if total.Ok? then Ok(Total, total.rest) else
    var unit := Char('@', s);
    if unit.Ok? then Ok(Unit, unit.rest) else Error
  }

  /** `price`: the kind, at least one blank, an amount. */
  function ParsePrice(s: string): (r: Res<(PriceType, ExprAmount.Amount)>)
    ensures !r.Failure?
    ensures r.Ok? ==> |r.rest| < |s|
  {
    var kind := PriceKind(s);
    if !kind.Ok? then Error else
    var gap := Space1(kind.rest);
    if !gap.Ok? then Error else
    var a := ExprAmount.ParseAmount(gap.rest);
    if !a.Ok? then Error else Ok((kind.value, a.value), a.rest)
  }

  // ---------------------------------------------------------------- posting

  /** `opt(terminated(flag, space1))`: a flag counts only with a blank after it. */
  function LeadingFlag(s: string): (r: (Option<Flag>, string))
    ensures |r.1| <= |s|
    ensures r.0.None? ==> r.1 == s
  {
    var f := ParseFlag(s);
    var gap := if f.Ok? then Space1(f.rest) else Error;
    if gap.Ok? then (Some(f.value), gap.rest) else (None, s)
  }

  /** `opt(preceded(space1, amount))`. */
  function OptionalAmount(s: string): (r: (Option<ExprAmount.Amount>, string))
    ensures |r.1| <= |s|
    ensures r.0.None? ==> r.1 == s
  {
    var gap := Space1(s);
    var a := if gap.Ok? then ExprAmount.ParseAmount(gap.rest) else Error;
    if a.Ok? then (Some(a.value), a.rest) else (None, s)
  }

  /** `opt(preceded(space1, lot))`. */
  function OptionalLot(s: string): (r: (Option<LotAttributes>, string))
    ensures |r.1| <= |s|
    ensures r.0.None? ==> r.1 == s
  {
    var gap := Space1(s);
    var l := if gap.Ok? then ParseLot(gap.rest) else Error;
    if l.Ok? then (Some(l.value), l.rest) else (None, s)
  }

  /** `opt(preceded(space1, price))`. */
  function OptionalPrice(s: string): (r: (Option<(PriceType, ExprAmount.Amount)>, string))
    ensures |r.1| <= |s|
    ensures r.0.None? ==> r.1 == s
  {
    var gap := Space1(s);
    var p := if gap.Ok? then ParsePrice(gap.rest) else Error;
    if p.Ok? then (Some(p.value), p.rest) else (None, s)
  }

  /** `opt(preceded(space0, comment))`. */
  function OptionalComment(s: string): (r: (Option<string>, string))
    ensures |r.1| <= |s|
    ensures r.0.None? ==> r.1 == s
  {
    var c := Strings.Comment(Space0(s));
    if c.Ok? then (Some(c.value), c.rest) else (None, s)
  }

  /** The posting after its optional flag. */
  function PostingAfterFlag(flag: Option<Flag>, s: string): (r: Res<Posting>)
    ensures !r.Failure?
    ensures r.Ok? ==> |r.rest| < |s| && r.value.flag == flag
  {
    var account := Accounts.ParseAccount(s);
    if !account.Ok? then Error else
    var (amount, afterAmount) := OptionalAmount(account.rest);
    var (lot, afterLot) := OptionalLot(afterAmount);
    var (price, afterPrice) := OptionalPrice(afterLot);
    var (comment, rest) := OptionalComment(afterPrice);
    Ok(Posting(flag, account.value, amount, price, lot, comment), rest)
  }

  /** `posting`. */
  function ParsePosting(s: string): (r: Res<Posting>)
    ensures !r.Failure?
    ensures r.Ok? ==> |r.rest| < |s|
  {
    var (flag, afterFlag) := LeadingFlag(s);
    PostingAfterFlag(flag, afterFlag)
  }

  // ------------------------------------------------------------- properties

  function Kind(a: LotAttribute): nat {
    match a
    case CostOf(_) => 0
    case DateOf(_) => 1
    case LabelOf(_) => 2
  }

  /** The record holds the value of this attribute. */
  predicate Records(l: LotAttributes, a: LotAttribute) {
    match a
    case CostOf(c) => l.cost == Some(c)
    case DateOf(d) => l.date == Some(d)
    case LabelOf(t) => l.lotLabel == Some(t)
  }

  /** For each kind, the last attribute of that kind is the one kept. */
  lemma {:induction false} LastOfKindWins(attrs: seq<LotAttribute>, i: nat)
    requires i < |attrs|
    requires forall j :: i < j < |attrs| ==> Kind(attrs[j]) != Kind(attrs[i])
    ensures Records(Fold(attrs), attrs[i])
  {
    var last := |attrs| - 1;
    if i < last {
      var init := attrs[..last];
      assert init[i] == attrs[i];
      forall j | i < j < |init| ensures Kind(init[j]) != Kind(init[i]) {
        assert init[j] == attrs[j];
      }
      LastOfKindWins(init, i);
    }
  }

  /** A kind that never occurs stays unset. */
  lemma {:induction false} AbsentKindUnset(attrs: seq<LotAttribute>)
    ensures (forall j :: 0 <= j < |attrs| ==> !attrs[j].CostOf?) ==> Fold(attrs).cost.None?
    ensures (forall j :: 0 <= j < |attrs| ==> !attrs[j].DateOf?) ==> Fold(attrs).date.None?
    ensures (forall j :: 0 <= j < |attrs| ==> !attrs[j].LabelOf?) ==> Fold(attrs).lotLabel.None?
  {
    if attrs != [] {
      var init := attrs[..|attrs| - 1];
      AbsentKindUnset(init);
      assert forall j :: 0 <= j < |init| ==> init[j] == attrs[j];
    }
  }

  /** `{}` and `{ }` give a lot with no attribute, hence no cost. */
  lemma EmptyLot(gap: string, rest: string)
    requires forall i :: 0 <= i < |gap| ==> IsBlank(gap[i])
    ensures ParseLot("{" + (gap + ("}" + rest))) == Ok(LotAttributes(None, None, None), rest)
  {
    var close := "}" + rest;
    assert ("{" + (gap + close))[1..] == gap + close;
    assert Space0(gap + close) == close by {
      Space0OfBlanks(gap, close);
    }
    assert ParseAttribute(close).Error? by {
      AmountExpression.NotAnExpression(close);
      ParserDates.ParseDateNeedsDigit(close);
    }
    assert ParseLotAttributes(close) == Ok(LotAttributes(None, None, None), close);
    assert Space0(close) == close by {
      Space0OfBlanks([], close);
    }
    assert close[1..] == rest;
    assert Char('}', close) == Ok('}', rest);
    assert Char('{', "{" + (gap + close)) == Ok('{', gap + close);
  }

  /** An empty lot has no cost. */
  lemma EmptyLotNoCost(p: Posting)
    requires p.lot == Some(LotAttributes(None, None, None))
    ensures Cost(p).None?
  {
  }

  /** `@@`, blanks and an amount make a total price. */
  lemma TotalPriceOf(gap: string, t: string, a: ExprAmount.Amount, rest: string)
    requires gap != [] && forall i :: 0 <= i < |gap| ==> IsBlank(gap[i])
    requires t == [] || !IsBlank(t[0])
    requires ExprAmount.ParseAmount(t) == Ok(a, rest)
    ensures ParsePrice("@@" + (gap + t)) == Ok((Total, a), rest)
  {
    PriceAfterKind("@@" + (gap + t), gap, t);
  }

  /** `@`, blanks and an amount make a per-unit price. */
  lemma UnitPriceOf(gap: string, t: string, a: ExprAmount.Amount, rest: string)
    requires gap != [] && forall i :: 0 <= i < |gap| ==> IsBlank(gap[i])
    requires t == [] || !IsBlank(t[0])
    requires ExprAmount.ParseAmount(t) == Ok(a, rest)
    ensures ParsePrice("@" + (gap + t)) == Ok((Unit, a), rest)
  {
    PriceAfterKind("@" + (gap + t), gap, t);
  }

  lemma PriceAfterKind(s: string, gap: string, t: string)
    requires gap != [] && forall i :: 0 <= i < |gap| ==> IsBlank(gap[i])
    requires t == [] || !IsBlank(t[0])
    requires s == "@@" + (gap + t) || s == "@" + (gap + t)
    ensures PriceKind(s).Ok? && PriceKind(s).rest == gap + t
    ensures Space1(gap + t) == Ok(gap, t)
  {
    if s == "@@" + (gap + t) {
      assert s[2..] == gap + t;
    } else {
      assert s[1..] == gap + t && s[1] == gap[0];
    }
    Space0OfBlanks(gap, t);
    assert (gap + t)[0] == gap[0];
  }

  /** The price kind must be followed by a blank. */
  lemma PriceNeedsBlank(marker: string, t: string)
    requires marker == "@" || marker == "@@"
    requires t != [] && !IsBlank(t[0]) && t[0] != '@'
    ensures ParsePrice(marker + t).Error?
  {
    var s := marker + t;
    if marker == "@@" {
      assert s[2..] == t;
    } else {
      assert s[1..] == t && s[1] == t[0];
    }
  }

  /** A posting starts with a flag or with the initial of its account. */
  lemma PostingStart(s: string)
    requires ParsePosting(s).Ok?
    ensures s[0] == '*' || s[0] == '!' || IsAsciiUpper(s[0])
  {
    var (flag, afterFlag) := LeadingFlag(s);
    if flag.None? {
      Accounts.AccountStart(s);
    }
  }

  /** In particular empty input is not a posting. */
  lemma EmptyNotPosting()
    ensures ParsePosting([]).Error?
  {
    if ParsePosting([]).Ok? {
      PostingStart([]);
    }
  }

  /** A flag directly followed by something other than a blank is not a flag,
    * and no account starts with it: the posting is rejected. */
  lemma FlagNeedsBlank(f: Flag, rest: string)
    requires rest == [] || !IsBlank(rest[0])
    ensures ParsePosting([FlagChar(f)] + rest).Error?
  {
    var s := [FlagChar(f)] + rest;
    assert s[1..] == rest;
    if Accounts.ParseAccount(s).Ok? {
      Accounts.AccountStart(s);
    }
  }

  /** A flag, blanks, then the rest of the posting. */
  lemma FlaggedPosting(f: Flag, gap: string, t: string)
    requires gap != [] && forall i :: 0 <= i < |gap| ==> IsBlank(gap[i])
    requires t == [] || !IsBlank(t[0])
    ensures ParsePosting([FlagChar(f)] + (gap + t)) == PostingAfterFlag(Some(f), t)
  {
    var s := [FlagChar(f)] + (gap + t);
    assert ParseFlag(s) == Ok(f, gap + t) by {
      FlagRoundTrip(f, gap + t);
    }
    assert Space1(gap + t) == Ok(gap, t) by {
      Space0OfBlanks(gap, t);
      assert (gap + t)[0] == gap[0];
    }
  }

  /** The amount is optional: an account followed by neither a blank nor a
    * comment is a posting of that account alone. */
  lemma AccountOnly(flag: Option<Flag>, s: string, a: Accounts.Account, rest: string)
    requires Accounts.ParseAccount(s) == Ok(a, rest)
    requires rest == [] || (!IsBlank(rest[0]) && rest[0] != ';')
    ensures PostingAfterFlag(flag, s) == Ok(Posting(flag, a, None, None, None, None), rest)
  {
    assert !Space1(rest).Ok?;
    assert OptionalAmount(rest) == (None, rest);
    assert OptionalLot(rest) == (None, rest);
    assert OptionalPrice(rest) == (None, rest);
    assert OptionalComment(rest) == (None, rest) by {
      assert Space0(rest) == rest by {
        Space0OfBlanks([], rest);
      }
    }
  }

  /** A comment after blanks is kept trimmed, its line ending left in place. */
  lemma CommentOf(gap: string, text: string, rest: string)
    requires forall i :: 0 <= i < |gap| ==> IsBlank(gap[i])
    requires forall i :: 0 <= i < |text| ==> NotLineBreak(text[i])
    requires text == [] || text[0] != ';'
    requires rest == [] || LineEnding(rest).Ok?
    ensures OptionalComment(gap + (";" + text + rest)) == (Some(Trim(text)), rest)
  {
    var c := ";" + text + rest;
    Space0OfBlanks(gap, c);
    assert Strings.Semicolons(1) == ";";
    Strings.CommentOfLine(1, text, rest);
  }

  /** After the account, blanks and a comment: no amount, lot or price, and
    * the comment trimmed. */
  lemma AccountThenComment(flag: Option<Flag>, s: string, a: Accounts.Account, gap: string, text: string, rest: string)
    requires Accounts.ParseAccount(s) == Ok(a, gap + (";" + text + rest))
    requires forall i :: 0 <= i < |gap| ==> IsBlank(gap[i])
    requires forall i :: 0 <= i < |text| ==> NotLineBreak(text[i])
    requires text == [] || text[0] != ';'
    requires rest == [] || LineEnding(rest).Ok?
    ensures PostingAfterFlag(flag, s) == Ok(Posting(flag, a, None, None, None, Some(Trim(text))), rest)
  {
    var after := gap + (";" + text + rest);
    assert NothingBeforeComment(after) by {
      NoPartsBeforeComment(gap, ";" + text + rest);
    }
    CommentOf(gap, text, rest);
  }

  predicate NothingBeforeComment(s: string) {
    OptionalAmount(s).0.None? && OptionalLot(s).0.None? && OptionalPrice(s).0.None?
  }

  lemma NoPartsBeforeComment(gap: string, c: string)
    requires forall i :: 0 <= i < |gap| ==> IsBlank(gap[i])
    requires c != [] && c[0] == ';'
    ensures NothingBeforeComment(gap + c)
  {
    if gap != [] {
      Space0OfBlanks(gap, c);
      assert (gap + c)[0] == gap[0];
      AmountExpression.NotAnExpression(c);
    } else {
      assert gap + c == c;
    }
  }

  // ------------------------------------------------- written lists and lots

  /** The attribute texts after the first, each behind `, `, then what
    * follows the list. */
  function Listed(texts: seq<string>, rest: string): string
    decreases |texts|
  {
    if texts == [] then rest else ", " + (texts[0] + Listed(texts[1..], rest))
  }

  /** The attribute texts joined by `, `, then what follows the list. */
  function Written(texts: seq<string>, rest: string): string {
    if texts == [] then rest else texts[0] + Listed(texts[1..], rest)
  }

  /** Each text starts with no blank and reads as its item, leaving the rest
    * of the written list. */
  ghost predicate ReadsAs<T>(item: string -> Res<T>, texts: seq<string>, values: seq<T>, rest: string)
    decreases |texts|
  {
    |texts| == |values| &&
    (texts != [] ==>
      texts[0] != [] && !IsBlank(texts[0][0]) &&
      item(texts[0] + Listed(texts[1..], rest)) == Ok(values[0], Listed(texts[1..], rest)) &&
      ReadsAs(item, texts[1..], values[1..], rest))
  }

  /** `, ` before something that is not a blank is a separator. */
  lemma SeparatorOf(x: string)
    requires x == [] || !IsBlank(x[0])
    ensures Separator(", " + x) == Ok(',', x)
  {
    var s := ", " + x;
    assert Space0(s) == s by {
      Space0OfBlanks([], s);
      assert [] + s == s;
    }
    assert s[1..] == " " + x;
    Space0OfBlanks(" ", x);
  }

  /** After the first item, `, ` and each further text give the further
    * items, and the list stops where no separator follows. */
  lemma {:induction false} SeparatedMoreOf<T>(item: string -> Res<T>, texts: seq<string>, values: seq<T>, rest: string)
    requires Shrinks(item)
    requires ReadsAs(item, texts, values, rest)
    requires !Separator(rest).Ok?
    ensures SeparatedMore(item, Listed(texts, rest)) == (values, rest)
    decreases |texts|
  {
    if texts != [] {
      var tail := Listed(texts[1..], rest);
      assert Listed(texts, rest) == ", " + (texts[0] + tail);
      assert Separator(", " + (texts[0] + tail)) == Ok(',', texts[0] + tail) by {
        SeparatorOf(texts[0] + tail);
      }
      assert item(texts[0] + tail) == Ok(values[0], tail);
      assert SeparatedMore(item, tail) == (values[1..], rest) by {
        SeparatedMoreOf(item, texts[1..], values[1..], rest);
      }
      assert [values[0]] + values[1..] == values;
    }
  }

  /** A written comma list reads back as exactly its items, and the list
    * ends before what follows it. */
  lemma SeparatedListOf<T>(item: string -> Res<T>, texts: seq<string>, values: seq<T>, rest: string)
    requires Shrinks(item)
    requires ReadsAs(item, texts, values, rest)
    requires texts == [] ==> !item(rest).Ok?
    requires !Separator(rest).Ok?
    ensures SeparatedList(item, Written(texts, rest)) == (values, rest)
  {
    if texts != [] {
      var tail := Listed(texts[1..], rest);
      assert Written(texts, rest) == texts[0] + tail;
      assert item(texts[0] + tail) == Ok(values[0], tail);
      assert SeparatedMore(item, tail) == (values[1..], rest) by {
        SeparatedMoreOf(item, texts[1..], values[1..], rest);
      }
      assert SeparatedList(item, texts[0] + tail) == ([values[0]] + values[1..], rest);
      assert [values[0]] + values[1..] == values;
    }
  }

  /** `{`, blanks, a written comma list, blanks and `}`: the lot is the fold
    * of the attributes in order, so for each kind it records the last one
    * given. */
  lemma LotOf(open: string, texts: seq<string>, attrs: seq<LotAttribute>, close: string, rest: string)
    requires forall i :: 0 <= i < |open| ==> IsBlank(open[i])
    requires forall i :: 0 <= i < |close| ==> IsBlank(close[i])
    requires ReadsAs(ParseAttribute, texts, attrs, close + ("}" + rest))
    ensures ParseLot("{" + (open + Written(texts, close + ("}" + rest)))) == Ok(Fold(attrs), rest)
    ensures forall i :: 0 <= i < |attrs| && (forall j :: i < j < |attrs| ==> Kind(attrs[j]) != Kind(attrs[i])) ==>
              Records(Fold(attrs), attrs[i])
  {
    var after := close + ("}" + rest);
    if texts == [] {
      assert "{" + (open + after) == "{" + ((open + close) + ("}" + rest));
      EmptyLot(open + close, rest);
    } else {
      var w := Written(texts, after);
      assert ParseLotAttributes(w) == Ok(Fold(attrs), after) by {
        Space0OfBlanks(close, "}" + rest);
        SeparatedListOf(ParseAttribute, texts, attrs, after);
      }
      LotFrame(open, w, Fold(attrs), close, rest);
    }
    LastOfEachKind(attrs);
  }

  /** The braces and blanks around the attributes. */
  lemma LotFrame(open: string, w: string, l: LotAttributes, close: string, rest: string)
    requires forall i :: 0 <= i < |open| ==> IsBlank(open[i])
    requires forall i :: 0 <= i < |close| ==> IsBlank(close[i])
    requires w != [] && !IsBlank(w[0])
    requires ParseLotAttributes(w) == Ok(l, close + ("}" + rest))
    ensures ParseLot("{" + (open + w)) == Ok(l, rest)
  {
    var s := "{" + (open + w);
    assert s[1..] == open + w;
    assert Char('{', s) == Ok('{', open + w);
    assert Space0(open + w) == w by {
      Space0OfBlanks(open, w);
    }
    assert Space0(close + ("}" + rest)) == "}" + rest by {
      Space0OfBlanks(close, "}" + rest);
    }
    assert ("}" + rest)[1..] == rest;
    assert Char('}', "}" + rest) == Ok('}', rest);
  }

  /** `LastOfKindWins` for every attribute at once. */
  lemma LastOfEachKind(attrs: seq<LotAttribute>)
    ensures forall i :: 0 <= i < |attrs| && (forall j :: i < j < |attrs| ==> Kind(attrs[j]) != Kind(attrs[i])) ==>
              Records(Fold(attrs), attrs[i])
  {
    forall i | 0 <= i < |attrs| && (forall j :: i < j < |attrs| ==> Kind(attrs[j]) != Kind(attrs[i]))
      ensures Records(Fold(attrs), attrs[i])
    {
      LastOfKindWins(attrs, i);
    }
  }

  /** An amount behind blanks. */
  lemma AmountBehind(g: string, t: string, amt: ExprAmount.Amount, rest: string)
    requires g != [] && forall i :: 0 <= i < |g| ==> IsBlank(g[i])
    requires t == [] || !IsBlank(t[0])
    requires ExprAmount.ParseAmount(t) == Ok(amt, rest)
    ensures OptionalAmount(g + t) == (Some(amt), rest)
  {
    Space0OfBlanks(g, t);
    assert (g + t)[0] == g[0];
  }

  /** A lot behind blanks. */
  lemma LotBehind(g: string, t: string, lot: LotAttributes, rest: string)
    requires g != [] && forall i :: 0 <= i < |g| ==> IsBlank(g[i])
    requires ParseLot(t) == Ok(lot, rest)
    ensures OptionalLot(g + t) == (Some(lot), rest)
  {
    assert t != [] && t[0] == '{';
    Space0OfBlanks(g, t);
    assert (g + t)[0] == g[0];
  }

  /** A price behind blanks. */
  lemma PriceBehind(g: string, t: string, price: (PriceType, ExprAmount.Amount), rest: string)
    requires g != [] && forall i :: 0 <= i < |g| ==> IsBlank(g[i])
    requires ParsePrice(t) == Ok(price, rest)
    ensures OptionalPrice(g + t) == (Some(price), rest)
  {
    assert PriceKind(t).Ok?;
    Space0OfBlanks(g, t);
    assert (g + t)[0] == g[0];
  }

  /** Every part of a posting in order: the account, then behind blanks an
    * amount, a lot and a price, then the comment part. */
  lemma PostingOfParts(flag: Option<Flag>, s: string, a: Accounts.Account,
                       g1: string, t1: string, amt: ExprAmount.Amount,
                       g2: string, t2: string, lot: LotAttributes,
                       g3: string, t3: string, price: (PriceType, ExprAmount.Amount),
                       c: string, comment: Option<string>, rest: string)
    requires g1 != [] && forall i :: 0 <= i < |g1| ==> IsBlank(g1[i])
    requires g2 != [] && forall i :: 0 <= i < |g2| ==> IsBlank(g2[i])
    requires g3 != [] && forall i :: 0 <= i < |g3| ==> IsBlank(g3[i])
    requires t1 == [] || !IsBlank(t1[0])
    requires Accounts.ParseAccount(s) == Ok(a, g1 + t1)
    requires ExprAmount.ParseAmount(t1) == Ok(amt, g2 + t2)
    requires ParseLot(t2) == Ok(lot, g3 + t3)
    requires ParsePrice(t3) == Ok(price, c)
    requires OptionalComment(c) == (comment, rest)
    ensures PostingAfterFlag(flag, s) == Ok(Posting(flag, a, Some(amt), Some(price), Some(lot), comment), rest)
  {
    assert OptionalAmount(g1 + t1) == (Some(amt), g2 + t2) by {
      AmountBehind(g1, t1, amt, g2 + t2);
    }
    assert OptionalLot(g2 + t2) == (Some(lot), g3 + t3) by {
      LotBehind(g2, t2, lot, g3 + t3);
    }
    assert OptionalPrice(g3 + t3) == (Some(price), c) by {
      PriceBehind(g3, t3, price, c);
    }
  }

  /** An account, an amount, a lot written in braces and a per-unit price,
    * each behind blanks, and nothing that reads as a comment: a posting with
    * all three, the lot folded from its attributes. */
  lemma PostingWithLotAndUnitPrice(flag: Option<Flag>, s: string, a: Accounts.Account,
                                   g1: string, t1: string, amt: ExprAmount.Amount, g2: string,
                                   open: string, texts: seq<string>, attrs: seq<LotAttribute>, close: string,
                                   g3: string, pg: string, pt: string, p: ExprAmount.Amount, rest: string)
    requires g1 != [] && forall i :: 0 <= i < |g1| ==> IsBlank(g1[i])
    requires g2 != [] && forall i :: 0 <= i < |g2| ==> IsBlank(g2[i])
    requires g3 != [] && forall i :: 0 <= i < |g3| ==> IsBlank(g3[i])
    requires pg != [] && forall i :: 0 <= i < |pg| ==> IsBlank(pg[i])
    requires forall i :: 0 <= i < |open| ==> IsBlank(open[i])
    requires forall i :: 0 <= i < |close| ==> IsBlank(close[i])
    requires t1 == [] || !IsBlank(t1[0])
    requires pt == [] || !IsBlank(pt[0])
    requires Accounts.ParseAccount(s) == Ok(a, g1 + t1)
    requires ExprAmount.ParseAmount(t1) ==
             Ok(amt, g2 + ("{" + (open + Written(texts, close + ("}" + (g3 + ("@" + (pg + pt))))))))
    requires ReadsAs(ParseAttribute, texts, attrs, close + ("}" + (g3 + ("@" + (pg + pt)))))
    requires ExprAmount.ParseAmount(pt) == Ok(p, rest)
    requires rest == [] || (!IsBlank(rest[0]) && rest[0] != ';')
    ensures PostingAfterFlag(flag, s) ==
            Ok(Posting(flag, a, Some(amt), Some((Unit, p)), Some(Fold(attrs)), None), rest)
  {
    var t3 := "@" + (pg + pt);
    LotOf(open, texts, attrs, close, g3 + t3);
    UnitPriceOf(pg, pt, p, rest);
    assert OptionalComment(rest) == (None, rest) by {
      Space0OfBlanks([], rest);
      assert [] + rest == rest;
    }
    PostingOfParts(flag, s, a, g1, t1, amt, g2, "{" + (open + Written(texts, close + ("}" + (g3 + t3)))),
                   Fold(attrs), g3, t3, (Unit, p), rest, None, rest);
  }
}
