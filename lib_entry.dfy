/**
 * src/lib.rs: the entries of a ledger in the generation built around
 * src/lib.rs.  An entry is a dated directive, an `option`, an `include`, a
 * `pushtag` or `poptag` operation, or any other whole line, which is skipped
 * as a comment.  What the `account` module reads (an account, a balance, an
 * open, a close, a pad) comes from the scanners of module External and is
 * kept as the text they matched.
 */
module LibEntries {
  import opened Nom
  import External
  import LibLexer
  import LibTransaction
  import Metadata
  import AmountParser
  import Dates
  import Events

  /** `DirectiveContent`. */
  datatype Content =
    | Transaction(transaction: LibTransaction.Transaction)
    | Price(price: AmountParser.Price)
    | Balance(balance: string)
    | Open(opening: string)
    | Close(closing: string)
    | Pad(pad: string)
    | Commodity(currency: string)
    | Event(event: Events.Event)

  /** `Directive`; its line number is not part of the model. */
  datatype Directive = Directive(date: Dates.Date, content: Content, metadata: map<string, Metadata.Value>)

  datatype BeanOption = BeanOption(name: string, value: string)

  /** `Entry`: what the ledger hands to its users. */
  datatype Entry = DirectiveEntry(directive: Directive) | OptionEntry(option: BeanOption) | IncludeEntry(path: string)

  /** `RawEntry`: what `entry` reads, tag operations and comments included. */
  datatype RawEntry =
    | RawDirective(directive: Directive)
    | RawOption(option: BeanOption)
    | RawInclude(path: string)
    | PushTag(pushed: string)
    | PopTag(popped: string)
    | Comment

  // -------------------------------------------------------- keyword directives

  /** The directives introduced by a keyword after the date. */
  datatype Kind = PriceKind | BalanceKind | OpenKind | CloseKind | PadKind | CommodityKind | EventKind

  /** The order in which `directive` tries them. */
  const KINDS: seq<Kind> := [PriceKind, BalanceKind, OpenKind, CloseKind, PadKind, CommodityKind, EventKind]

  function KeywordOf(k: Kind): string {
    match k
    case PriceKind => "price"
    case BalanceKind => "balance"
    case OpenKind => "open"
    case CloseKind => "close"
    case PadKind => "pad"
    case CommodityKind => "commodity"
    case EventKind => "event"
  }

  /** What follows a keyword and its blanks, read into the content. */
  function Body(scans: External.AccountScanners, k: Kind, s: string): (r: Res<Content>)
    ensures r.Ok? ==> |r.rest| <= |s|
    ensures r.Ok? ==> (r.value.Price? <==> k == PriceKind) && (r.value.Event? <==> k == EventKind)
  {
    match k
    case PriceKind =>
      var p := AmountParser.ParsePrice(s);
      if p.Ok? then Ok(Price(p.value), p.rest) else Forward(p)
    case BalanceKind =>
      var b := External.Run(scans.balance, s);
      if b.Ok? then Ok(Balance(b.value), b.rest) else Forward(b)
    case OpenKind =>
      var o := External.Run(scans.open, s);
      if o.Ok? then Ok(Open(o.value), o.rest) else Forward(o)
    case CloseKind =>
      var c := External.Run(scans.close, s);
      if c.Ok? then Ok(Close(c.value), c.rest) else Forward(c)
    case PadKind =>
      var p := External.Run(scans.pad, s);
      if p.Ok? then Ok(Pad(p.value), p.rest) else Forward(p)
    case CommodityKind =>
      var c := AmountParser.Currency(s);
      if c.Ok? then Ok(Commodity(c.value), c.rest) else Forward(c)
    case EventKind =>
      var e := Events.Parse(s);
      if e.Ok? then Ok(Event(e.value), e.rest) else Forward(e)
  }

  /** `preceded(tag(keyword), cut(preceded(space1, body)))`: once the keyword
    * is read, the directive is committed. */
  function Keyword(scans: External.AccountScanners, k: Kind, s: string): (r: Res<Content>)
    ensures r.Error? <==> !Tag(KeywordOf(k), s).Ok?
    ensures r.Ok? ==> |r.rest| < |s|
  {
    var keyword := Tag(KeywordOf(k), s);
    if !keyword.Ok? then Forward(keyword) else
    var gap := Space1(keyword.rest);
    if !gap.Ok? then Failure else
    Cut(Body(scans, k, gap.rest))
  }

  /** The `alt` of the keyword directives, tried in the order of `ks`. */
  function Keywords(scans: External.AccountScanners, ks: seq<Kind>, s: string): (r: Res<Content>)
    ensures r.Ok? ==> |r.rest| < |s|
  {
    if ks == [] then Error else
    var r := Keyword(scans, ks[0], s);
    if !r.Error? then r else Keywords(scans, ks[1..], s)
  }

  /** `directive`: a date, blanks (committed), then a transaction or a keyword
    * directive ending its line, followed by its metadata. */
  function ParseDirective(scans: External.AccountScanners, s: string): (r: Res<Directive>)
    ensures r.Error? <==> Dates.Parse(s).Error? ||
                          (Dates.Parse(s).Ok? && Space1(Dates.Parse(s).rest).Ok? &&
                           LibTransaction.Parse(scans.account, Space1(Dates.Parse(s).rest).rest).Error? &&
                           (var k := Keywords(scans, KINDS, Space1(Dates.Parse(s).rest).rest);
                            k.Error? || (k.Ok? && LibLexer.EndOfLine(k.rest).Error?)))
    ensures r.Ok? ==> Dates.Parse(s).Ok? && r.value.date == Dates.Parse(s).value
    ensures r.Ok? ==> |r.rest| < |s|
  {
    var date := Dates.Parse(s);
    if !date.Ok? then Forward(date) else
    var gap := Space1(date.rest);
    if !gap.Ok? then Failure else
    var t := LibTransaction.Parse(scans.account, gap.rest);
    if t.Ok? then Ok(Directive(date.value, Transaction(t.value.0), t.value.1), t.rest) else
    if t.Failure? then Failure else
    var k := Keywords(scans, KINDS, gap.rest);
    if !k.Ok? then Forward(k) else
    var end := LibLexer.EndOfLine(k.rest);
    if !end.Ok? then Forward(end) else
    var meta := Metadata.Parse(end.rest);
    Ok(Directive(date.value, k.value, meta.value), meta.rest)
  }

  // ------------------------------------------------------------ other entries

  /** `option`: the keyword, then a name and a value as quoted strings after
    * blanks, ending the line. */
  function ParseOption(s: string): (r: Res<BeanOption>)
    ensures !r.Failure?
    ensures r.Ok? ==> |r.rest| < |s|
  {
    var keyword := Tag("option", s);
    if !keyword.Ok? then Forward(keyword) else
    var gap := Space1(keyword.rest);
    if !gap.Ok? then Forward(gap) else
    var name := LibLexer.QuotedString(gap.rest);
    if !name.Ok? then Forward(name) else
    var gap2 := Space1(name.rest);
    if !gap2.Ok? then Forward(gap2) else
    var value := LibLexer.QuotedString(gap2.rest);
    if !value.Ok? then Forward(value) else
    var end := LibLexer.EndOfLine(value.rest);
    if !end.Ok? then Forward(end) else
    Ok(BeanOption(name.value, value.value), end.rest)
  }

  /** `include`: the keyword, then, committed, blanks, a quoted path and the
    * end of the line. */
  function ParseInclude(s: string): (r: Res<string>)
    ensures r.Error? <==> !Tag("include", s).Ok?
    ensures r.Ok? ==> |r.rest| < |s|
  {
    var keyword := Tag("include", s);
    if !keyword.Ok? then Forward(keyword) else
    var gap := Space1(keyword.rest);
    if !gap.Ok? then Failure else
    var path := LibLexer.QuotedString(gap.rest);
    if !path.Ok? then Failure else
    var end := LibLexer.EndOfLine(path.rest);
    if !end.Ok? then Failure else
    Ok(path.value, end.rest)
  }

  /** `preceded((tag(keyword), space1), parse_tag)`. */
  function TagAfter(keyword: string, s: string): (r: Res<string>)
    ensures !r.Failure?
    ensures r.Ok? ==> |r.rest| < |s|
  {
    var k := Tag(keyword, s);
    if !k.Ok? then Forward(k) else
    var gap := Space1(k.rest);
    if !gap.Ok? then Forward(gap) else
    LibTransaction.ParseTag(gap.rest)
  }

  /** `tag_stack_operation`: `pushtag` or `poptag`, blanks and a tag. */
  function TagStackOperation(s: string): (r: Res<RawEntry>)
    ensures !r.Failure?
    ensures r.Ok? ==> (r.value.PushTag? || r.value.PopTag?) && |r.rest| < |s|
  {
    var push := TagAfter("pushtag", s);
    if push.Ok? then Ok(PushTag(push.value), push.rest) else
    var pop := TagAfter("poptag", s);
    if pop.Ok? then Ok(PopTag(pop.value), pop.rest) else Error
  }

  /** What each alternative of `entry` makes of the same input. */
  datatype Attempts = Attempts(
    directive: Res<Directive>,
    option: Res<BeanOption>,
    inclusion: Res<string>,
    tagOperation: Res<RawEntry>,
    line: Res<()>)

  function Attempt(scans: External.AccountScanners, s: string): (at: Attempts)
    ensures at.directive.Ok? ==> |at.directive.rest| < |s|
    ensures at.option.Ok? ==> |at.option.rest| < |s|
    ensures at.inclusion.Ok? ==> |at.inclusion.rest| < |s|
    ensures at.tagOperation.Ok? ==> (at.tagOperation.value.PushTag? || at.tagOperation.value.PopTag?) &&
                                    |at.tagOperation.rest| < |s|
    ensures at.line.Ok? ==> |at.line.rest| < |s|
  {
    Attempts(ParseDirective(scans, s), ParseOption(s), ParseInclude(s), TagStackOperation(s), LibLexer.Line(s))
  }

  /** The `alt` of `entry`, over the results of its alternatives. */
  function Alt(at: Attempts): (r: Res<RawEntry>)
    ensures r.Error? <==> at.directive.Error? && at.option.Error? && at.inclusion.Error? &&
                          at.tagOperation.Error? && at.line.Error?
  {
    var d, o, i, t, l := at.directive, at.option, at.inclusion, at.tagOperation, at.line;
    if d.Ok? then Ok(RawDirective(d.value), d.rest) else if d.Failure? then Failure else
    if o.Ok? then Ok(RawOption(o.value), o.rest) else if o.Failure? then Failure else
    if i.Ok? then Ok(RawInclude(i.value), i.rest) else if i.Failure? then Failure else
    if t.Ok? then Ok(t.value, t.rest) else if t.Failure? then Failure else
    if l.Ok? then Ok(Comment, l.rest) else Forward(l)
  }

  /** `entry`. */
  function ParseEntry(scans: External.AccountScanners, s: string): (r: Res<RawEntry>)
    ensures r.Ok? ==> |r.rest| < |s|
  {
    Alt(Attempt(scans, s))
  }

  // ------------------------------------------------------------- properties

  /** No keyword is a prefix of another, so at most one keyword matches. */
  lemma KeywordsExclusive(k: Kind, j: Kind, s: string)
    requires Tag(KeywordOf(k), s).Ok? && Tag(KeywordOf(j), s).Ok?
    ensures k == j
  {
    var a, b := KeywordOf(k), KeywordOf(j);
    assert |a| >= 2 && |b| >= 2;
    assert a[0] == s[..|a|][0] == s[0] == s[..|b|][0] == b[0];
    assert a[1] == s[..|a|][1] == s[1] == s[..|b|][1] == b[1];
  }

  /** The keyword that starts the text decides which directive is read: the
    * others do not match and are passed over. */
  lemma {:induction false} KeywordDecides(scans: External.AccountScanners, ks: seq<Kind>, k: Kind, s: string)
    requires k in ks
    requires Tag(KeywordOf(k), s).Ok?
    ensures Keywords(scans, ks, s) == Keyword(scans, k, s)
  {
    if ks[0] == k {
    } else {
      if Tag(KeywordOf(ks[0]), s).Ok? {
        KeywordsExclusive(k, ks[0], s);
      }
      KeywordDecides(scans, ks[1..], k, s);
    }
  }

  /** Text after the date that starts with no keyword is no keyword directive. */
  lemma {:induction false} NoKeyword(scans: External.AccountScanners, ks: seq<Kind>, s: string)
    requires forall k :: k in ks ==> !Tag(KeywordOf(k), s).Ok?
    ensures Keywords(scans, ks, s).Error?
  {
    if ks != [] {
      assert ks[0] in ks;
      NoKeyword(scans, ks[1..], s);
    }
  }

  /** Once the date, blanks and a keyword are read, a mismatch later on is a
    * committed failure of the whole entry: it is not skipped as a comment. */
  lemma KeywordCommits(scans: External.AccountScanners, s: string, k: Kind)
    requires Dates.Parse(s).Ok? && Space1(Dates.Parse(s).rest).Ok?
    requires Tag(KeywordOf(k), Space1(Dates.Parse(s).rest).rest).Ok?
    requires Keyword(scans, k, Space1(Dates.Parse(s).rest).rest).Failure?
    ensures ParseDirective(scans, s).Failure?
    ensures ParseEntry(scans, s).Failure?
  {
    var t := Space1(Dates.Parse(s).rest).rest;
    KeywordNotTransaction(scans, k, t);
    KeywordDecides(scans, KINDS, k, t);
  }

  /** A keyword is neither a flag nor `txn`. */
  lemma KeywordNotTransaction(scans: External.AccountScanners, k: Kind, t: string)
    requires Tag(KeywordOf(k), t).Ok?
    ensures LibTransaction.Parse(scans.account, t).Error?
  {
    assert t[0] == KeywordOf(k)[0];
  }

  /** The date, blanks and the readings after them make up `directive` for
    * a transaction. */
  lemma TransactionSteps(scans: External.AccountScanners, s: string, d: Dates.Date, u: string, t: string,
                         tr: LibTransaction.Transaction, meta: map<string, Metadata.Value>, rest: string)
    requires Dates.Parse(s) == Ok(d, u)
    requires Space1(u).Ok? && Space1(u).rest == t
    requires LibTransaction.Parse(scans.account, t) == Ok((tr, meta), rest)
    ensures ParseDirective(scans, s) == Ok(Directive(d, Transaction(tr), meta), rest)
  {
  }

  /** A date, blanks and a transaction: the directive holds that date, the
    * transaction read and the metadata read after its header. */
  lemma TransactionDirectiveOf(scans: External.AccountScanners, s: string, d: Dates.Date, g: string, t: string,
                               tr: LibTransaction.Transaction, meta: map<string, Metadata.Value>, rest: string)
    requires Dates.Parse(s) == Ok(d, g + t)
    requires g != [] && forall i :: 0 <= i < |g| ==> IsBlank(g[i])
    requires LibTransaction.Parse(scans.account, t) == Ok((tr, meta), rest)
    ensures ParseDirective(scans, s) == Ok(Directive(d, Transaction(tr), meta), rest)
  {
    assert Space1(g + t).Ok? && Space1(g + t).rest == t by {
      TransactionStart(scans, t);
      BlanksBefore(g, t);
    }
    TransactionSteps(scans, s, d, g + t, t, tr, meta, rest);
  }

  /** The date, blanks and the readings after them make up `directive` for
    * a keyword directive. */
  lemma KeywordSteps(scans: External.AccountScanners, s: string, d: Dates.Date, u: string, t: string,
                     c: Content, e: string, m: string)
    requires Dates.Parse(s) == Ok(d, u)
    requires Space1(u).Ok? && Space1(u).rest == t
    requires LibTransaction.Parse(scans.account, t).Error?
    requires Keywords(scans, KINDS, t) == Ok(c, e)
    requires LibLexer.EndOfLine(e) == Ok((), m)
    ensures ParseDirective(scans, s) == Ok(Directive(d, c, Metadata.Parse(m).value), Metadata.Parse(m).rest)
  {
  }

  /** A date, blanks and a keyword directive ending its line: the directive
    * holds that date, the content the keyword's parser read and the metadata
    * of the lines after it. */
  lemma KeywordDirectiveOf(scans: External.AccountScanners, s: string, d: Dates.Date, g: string, t: string,
                           k: Kind, c: Content, e: string, m: string)
    requires Dates.Parse(s) == Ok(d, g + t)
    requires g != [] && forall i :: 0 <= i < |g| ==> IsBlank(g[i])
    requires Tag(KeywordOf(k), t).Ok?
    requires Keyword(scans, k, t) == Ok(c, e)
    requires LibLexer.EndOfLine(e) == Ok((), m)
    ensures ParseDirective(scans, s) == Ok(Directive(d, c, Metadata.Parse(m).value), Metadata.Parse(m).rest)
  {
    KeywordStart(k, t);
    BlanksBefore(g, t);
    KeywordNotTransaction(scans, k, t);
    KeywordDecides(scans, KINDS, k, t);
    KeywordSteps(scans, s, d, g + t, t, c, e, m);
  }

  /** `space1` skips exactly the blanks before what follows them. */
  lemma BlanksBefore(g: string, t: string)
    requires g != [] && forall i :: 0 <= i < |g| ==> IsBlank(g[i])
    requires t == [] || !IsBlank(t[0])
    ensures Space1(g + t).Ok? && Space1(g + t).rest == t
  {
    Space0OfBlanks(g, t);
    assert (g + t)[0] == g[0];
  }

  /** A transaction starts with a flag or `txn`, not with a blank. */
  lemma TransactionStart(scans: External.AccountScanners, t: string)
    requires LibTransaction.Parse(scans.account, t).Ok?
    ensures t != [] && !IsBlank(t[0])
  {
  }

  /** A keyword starts with a letter. */
  lemma KeywordStart(k: Kind, t: string)
    requires Tag(KeywordOf(k), t).Ok?
    ensures t != [] && !IsBlank(t[0])
  {
    assert t[0] == KeywordOf(k)[0];
  }

  /** A keyword, blanks and what its body reads: the keyword's content. */
  lemma KeywordOfBody(scans: External.AccountScanners, k: Kind, g: string, b: string)
    requires g != [] && forall i :: 0 <= i < |g| ==> IsBlank(g[i])
    requires b == [] || !IsBlank(b[0])
    ensures Keyword(scans, k, KeywordOf(k) + (g + b)) == Cut(Body(scans, k, b))
  {
    KeywordFirst(KeywordOf(k), g + b);
    Space1OfBlanks(g, b);
  }

  /** A date not followed by a blank is a committed failure. */
  lemma DateNeedsBlank(scans: External.AccountScanners, s: string)
    requires Dates.Parse(s).Ok? && !Space1(Dates.Parse(s).rest).Ok?
    ensures ParseDirective(scans, s).Failure? && ParseEntry(scans, s).Failure?
  {
  }

  /** A plain text between double quotes. */
  function Quoted(p: string): string {
    "\"" + p + "\""
  }

  /** Two plain quoted strings after `option` and blanks are its name and
    * value; the line ending is consumed. */
  lemma OptionOf(gap: string, name: string, gap2: string, value: string, ending: string, rest: string)
    requires gap != [] && forall i :: 0 <= i < |gap| ==> IsBlank(gap[i])
    requires gap2 != [] && forall i :: 0 <= i < |gap2| ==> IsBlank(gap2[i])
    requires LibLexer.AllPlain(name) && LibLexer.AllPlain(value)
    requires ending == "\n" || ending == "\r\n" || (ending == [] && rest == [])
    ensures var s := "option" + (gap + (Quoted(name) + (gap2 + (Quoted(value) + (ending + rest)))));
            ParseOption(s).Ok? && ParseOption(s).value == BeanOption(name, value) && ParseOption(s).rest == rest
  {
    var v := Quoted(value) + (ending + rest);
    var u := Quoted(name) + (gap2 + v);
    StringThenBlanks(gap, name, gap2, v);
    LastString(value, ending, rest);
    var s := "option" + (gap + u);
    assert s[..6] == "option" && s[6..] == gap + u;
    OptionSteps(s, gap + u, u, name, gap2 + v, v, value, ending + rest, rest);
  }

  lemma StringThenBlanks(gap: string, name: string, gap2: string, v: string)
    requires gap != [] && forall i :: 0 <= i < |gap| ==> IsBlank(gap[i])
    requires gap2 != [] && forall i :: 0 <= i < |gap2| ==> IsBlank(gap2[i])
    requires LibLexer.AllPlain(name)
    requires v != [] && v[0] == '"'
    ensures Space1(gap + (Quoted(name) + (gap2 + v))) == Ok(gap, Quoted(name) + (gap2 + v))
    ensures LibLexer.QuotedString(Quoted(name) + (gap2 + v)) == Ok(name, gap2 + v)
    ensures Space1(gap2 + v) == Ok(gap2, v)
  {
    Space1OfBlanks(gap, Quoted(name) + (gap2 + v));
    Space1OfBlanks(gap2, v);
    LibLexer.PlainString(name, gap2 + v);
  }

  lemma LastString(value: string, ending: string, rest: string)
    requires LibLexer.AllPlain(value)
    requires ending == "\n" || ending == "\r\n" || (ending == [] && rest == [])
    ensures LibLexer.QuotedString(Quoted(value) + (ending + rest)) == Ok(value, ending + rest)
    ensures LibLexer.EndOfLine(ending + rest) == Ok((), rest)
  {
    LibLexer.PlainString(value, ending + rest);
    EndOfLineAlone(ending, rest);
  }

  lemma EndOfLineAlone(ending: string, rest: string)
    requires ending == "\n" || ending == "\r\n" || (ending == [] && rest == [])
    ensures LibLexer.EndOfLine(ending + rest) == Ok((), rest)
  {
    var none: string := [];
    assert none + none + ending + rest == ending + rest by {
      assert none + none == none;
      assert none + ending == ending;
    }
    LibLexer.EndOfLineOf(none, none, ending, rest);
  }

  lemma OptionSteps(s: string, u1: string, u2: string, name: string, u3: string, u4: string, value: string,
                    u5: string, rest: string)
    requires Tag("option", s).Ok? && Tag("option", s).rest == u1
    requires Space1(u1).Ok? && Space1(u1).rest == u2
    requires LibLexer.QuotedString(u2) == Ok(name, u3)
    requires Space1(u3).Ok? && Space1(u3).rest == u4
    requires LibLexer.QuotedString(u4) == Ok(value, u5)
    requires LibLexer.EndOfLine(u5) == Ok((), rest)
    ensures ParseOption(s).Ok? && ParseOption(s).value == BeanOption(name, value) && ParseOption(s).rest == rest
  {
  }

  /** `include` with anything but blanks and a quoted string after it is a
    * committed failure. */
  lemma IncludeNeedsPath(c: char, rest: string)
    requires c != '"' && !IsBlank(c)
    ensures ParseInclude("include" + [c] + rest).Failure?
  {
    var s := "include" + [c] + rest;
    assert s[..7] == "include" && s[7..] == [c] + rest;
  }

  /** `pushtag`, blanks and `#name` push `name`; `poptag` pops it. */
  lemma TagOperationOf(gap: string, name: string, rest: string)
    requires gap != [] && forall i :: 0 <= i < |gap| ==> IsBlank(gap[i])
    requires LibTransaction.AllTagChars(name)
    requires rest == [] || !LibTransaction.IsTagChar(rest[0])
    ensures TagStackOperation("pushtag" + (gap + ("#" + name + rest))) == Ok(PushTag(name), rest)
    ensures TagStackOperation("poptag" + (gap + ("#" + name + rest))) == Ok(PopTag(name), rest)
  {
    TagAfterOf("pushtag", gap, name, rest);
    TagAfterOf("poptag", gap, name, rest);
    PoptagIsNotPushtag(gap + ("#" + name + rest));
  }

  /** The keyword, blanks and `#name`: the tag is `name`. */
  lemma TagAfterOf(keyword: string, gap: string, name: string, rest: string)
    requires gap != [] && forall i :: 0 <= i < |gap| ==> IsBlank(gap[i])
    requires LibTransaction.AllTagChars(name)
    requires rest == [] || !LibTransaction.IsTagChar(rest[0])
    ensures TagAfter(keyword, keyword + (gap + ("#" + name + rest))) == Ok(name, rest)
  {
    var t := "#" + name + rest;
    TagOf(name, rest);
    Space1OfBlanks(gap, t);
    KeywordFirst(keyword, gap + t);
  }

  lemma KeywordFirst(keyword: string, u: string)
    ensures Tag(keyword, keyword + u) == Ok(keyword, u)
  {
    assert (keyword + u)[..|keyword|] == keyword && (keyword + u)[|keyword|..] == u;
  }

  lemma PoptagIsNotPushtag(u: string)
    ensures !Tag("pushtag", "poptag" + u).Ok?
  {
    var pop := "poptag" + u;
    if |pop| >= 7 {
      assert pop[..7][1] == 'o';
    }
  }

  lemma TagOf(name: string, rest: string)
    requires LibTransaction.AllTagChars(name)
    requires rest == [] || !LibTransaction.IsTagChar(rest[0])
    ensures LibTransaction.ParseTag("#" + name + rest) == Ok(name, rest)
  {
    var t := "#" + name + rest;
    assert t[1..] == name + rest;
    SpanOfPrefix(LibTransaction.IsTagChar, name, rest);
    if rest != [] {
      assert SpanOf(LibTransaction.IsTagChar, rest) == 0;
    }
    assert (name + rest)[..|name|] == name && (name + rest)[|name|..] == rest;
  }

  /** When no other alternative applies, a whole line, line ending included,
    * is skipped as a comment; a last line without a line ending is an error,
    * so the stream stops there. */
  lemma CommentLine(at: Attempts)
    requires at.directive.Error? && at.option.Error? && at.inclusion.Error? && at.tagOperation.Error?
    ensures at.line.Ok? ==> Alt(at) == Ok(Comment, at.line.rest)
    ensures at.line.Error? ==> Alt(at).Error?
  {
  }

  /** The first alternative that does not fail recoverably decides. */
  lemma DirectiveFirst(at: Attempts)
    requires !at.directive.Error?
    ensures Alt(at).Ok? <==> at.directive.Ok?
    ensures at.directive.Ok? ==> Alt(at) == Ok(RawDirective(at.directive.value), at.directive.rest)
  {
  }

  /** A line that none of the entries starts is skipped whole. */
  lemma JunkLine(scans: External.AccountScanners, text: string, after: string)
    requires text != [] && !IsDigit(text[0]) && text[0] != 'o' && text[0] != 'i' && text[0] != 'p'
    requires forall i :: 0 <= i < |text| ==> NotLineBreak(text[i])
    requires after == [] || LineEnding(after).Ok?
    ensures ParseEntry(scans, text + after) ==
            if after == [] then Error else Ok(Comment, LineEnding(after).rest)
  {
    var s := text + after;
    assert s[0] == text[0];
    NotDate(s);
    LibLexer.LineOf(text, after);
    CommentLine(Attempt(scans, s));
  }

  lemma NotDate(s: string)
    requires s != [] && !IsDigit(s[0])
    ensures Dates.Parse(s).Error?
  {
    Dates.ParseSpec(s);
  }
}
