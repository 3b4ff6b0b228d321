/**
 * src/transaction/mod.rs: a transaction of the newer grammar.  A header line
 * (date, `txn` or a flag, an optional payee and narration, tags, a comment)
 * is followed by indented posting lines; after the header has been read the
 * parser is committed, so what cannot end the transaction is a failure.
 */
module Transactions {
  import opened Nom
  import ParserDates
  import Strings
  import opened TransactionFlag
  import TransactionPostings

  datatype Transaction = Transaction(date: ParserDates.Date, flag: Option<Flag>, payee: Option<string>,
                                     narration: Option<string>, tags: seq<string>,
                                     postings: seq<TransactionPostings.Posting>, comment: Option<string>)

  /** `append_tags`: the given tags go after the existing ones. */
  function AppendTags(t: Transaction, tags: seq<string>): (r: Transaction)
    ensures |r.tags| == |t.tags| + |tags|
    ensures forall i :: 0 <= i < |t.tags| ==> r.tags[i] == t.tags[i]
    ensures forall i :: 0 <= i < |tags| ==> r.tags[|t.tags| + i] == tags[i]
    ensures r.(tags := t.tags) == t
  {
    t.(tags := t.tags + tags)
  }

  /** Appending twice is appending both lists, in order. */
  lemma AppendTagsTwice(t: Transaction, a: seq<string>, b: seq<string>)
    ensures AppendTags(AppendTags(t, a), b) == AppendTags(t, a + b)
  {
    assert t.tags + a + b == t.tags + (a + b);
  }

  // ------------------------------------------------------------------- tags

  /** What ends a tag: whitespace or the `#` of the next tag. */
  predicate EndsTag(c: char) { IsWhitespace(c) || c == '#' }

  predicate InTag(c: char) { !EndsTag(c) }

  predicate IsTagText(t: string) { forall i :: 0 <= i < |t| ==> InTag(t[i]) }

  /** `tag`: `#` and the text up to whitespace or another `#`. */
  function ParseTag(s: string): (r: Res<string>)
    ensures !r.Failure?
    ensures r.Ok? <==> s != [] && s[0] == '#'
    ensures r.Ok? ==> s == "#" + r.value + r.rest && IsTagText(r.value) && (r.rest == [] || EndsTag(r.rest[0]))
  {
    var hash := Char('#', s);
    if !hash.Ok? then Error else
    var text := TakeWhile(InTag, hash.rest);
    assert s == "#" + text.value + text.rest by {
      assert s == [s[0]] + s[1..];
    }
    text
  }

  /** A tag is read up to the end of the input, a blank or another `#`. */
  lemma TagOf(t: string, rest: string)
    requires IsTagText(t)
    requires rest == [] || EndsTag(rest[0])
    ensures ParseTag("#" + t + rest) == Ok(t, rest)
  {
    var s := "#" + t + rest;
    assert s[1..] == t + rest;
    SpanOfPrefix(InTag, t, rest);
    assert SpanOf(InTag, rest) == 0;
    assert (t + rest)[..|t|] == t && (t + rest)[|t|..] == rest;
  }

  /** `many0(preceded(space0, tag))`: the tags in the order written. */
  function Tags(s: string): (r: (seq<string>, string))
    ensures |r.1| <= |s|
    decreases |s|
  {
    var tag := ParseTag(Space0(s));
    if !tag.Ok? then ([], s) else
    var more := Tags(tag.rest);
    ([tag.value] + more.0, more.1)
  }

  /** Tags written one after another, each behind a blank, then `rest`. */
  function WrittenTags(tags: seq<string>, rest: string): string {
    if tags == [] then rest else " #" + tags[0] + WrittenTags(tags[1..], rest)
  }

  /** Reading written tags gives them back in order. */
  lemma {:induction false} TagsRoundTrip(tags: seq<string>, rest: string)
    requires forall i :: 0 <= i < |tags| ==> IsTagText(tags[i])
    requires rest == [] || (EndsTag(rest[0]) && !IsBlank(rest[0]) && rest[0] != '#')
    ensures Tags(WrittenTags(tags, rest)) == (tags, rest)
  {
    if tags == [] {
      Space0OfBlanks([], rest);
    } else {
      assert forall i :: 0 <= i < |tags[1..]| ==> tags[1..][i] == tags[i + 1];
      TagsRoundTrip(tags[1..], rest);
      WrittenTagsStart(tags[1..], rest);
      TagsCons(tags, rest);
    }
  }

  lemma TagsCons(tags: seq<string>, rest: string)
    requires tags != [] && IsTagText(tags[0])
    requires Tags(WrittenTags(tags[1..], rest)) == (tags[1..], rest)
    requires WrittenTags(tags[1..], rest) == [] || EndsTag(WrittenTags(tags[1..], rest)[0])
    ensures Tags(WrittenTags(tags, rest)) == (tags, rest)
  {
    var tail := WrittenTags(tags[1..], rest);
    assert WrittenTags(tags, rest) == " #" + tags[0] + tail;
    OneTag(tags[0], tail);
    HeadTail(tags);
  }

  lemma WrittenTagsStart(tags: seq<string>, rest: string)
    requires rest == [] || EndsTag(rest[0])
    ensures var w := WrittenTags(tags, rest); w == [] || EndsTag(w[0])
  {
    if tags != [] {
      assert WrittenTags(tags, rest)[0] == ' ';
    }
  }

  /** A blank, a tag and then the following tags. */
  lemma OneTag(t: string, tail: string)
    requires IsTagText(t)
    requires tail == [] || EndsTag(tail[0])
    ensures Tags(" #" + t + tail) == ([t] + Tags(tail).0, Tags(tail).1)
  {
    assert " #" + t + tail == " " + ("#" + t + tail);
    Space0OfBlanks(" ", "#" + t + tail);
    TagOf(t, tail);
  }

  // ------------------------------------------------------------ description

  /** A string as it is written in a ledger. */
  function Quoted(t: string): string {
    "\"" + Strings.Escape(t) + "\""
  }

  /** `payee_and_narration`: two strings are a payee and a narration, one
    * string is the narration alone. */
  function Description(s: string): (r: Res<(Option<string>, string)>)
    ensures !r.Failure?
    ensures r.Ok? <==> Strings.QuotedString(s).Ok?
    ensures r.Ok? ==> |r.rest| < |s|
  {
    var first := Strings.QuotedString(s);
    if !first.Ok? then Error else
    var gap := Space1(first.rest);
    var second := if gap.Ok? then Strings.QuotedString(gap.rest) else Error;
    if second.Ok? then Ok((Some(first.value), second.value), second.rest)
    else Ok((None, first.value), first.rest)
  }

  /** A single string is the narration, and there is no payee. */
  lemma NarrationOnly(n: string, rest: string)
    requires rest == [] || !IsBlank(rest[0]) || Strings.QuotedString(Space0(rest)).Error?
    ensures Description(Quoted(n) + rest) == Ok((None, n), rest)
  {
    Strings.QuotedStringRoundTrip(n, rest);
  }

  /** Two strings separated by blanks are the payee, then the narration. */
  lemma PayeeThenNarration(p: string, gap: string, n: string, rest: string)
    requires gap != [] && forall i :: 0 <= i < |gap| ==> IsBlank(gap[i])
    ensures Description(Quoted(p) + (gap + (Quoted(n) + rest))) == Ok((Some(p), n), rest)
  {
    var after := gap + (Quoted(n) + rest);
    Strings.QuotedStringRoundTrip(p, after);
    assert Quoted(p) + after == "\"" + Strings.Escape(p) + "\"" + after;
    Strings.QuotedStringRoundTrip(n, rest);
    assert Space1(after) == Ok(gap, Quoted(n) + rest) by {
      Space0OfBlanks(gap, Quoted(n) + rest);
      assert after[0] == gap[0];
    }
  }

  // ----------------------------------------------------------------- header

  /** The date, blanks, and `txn` (no flag) or a flag. */
  function Header(s: string): (r: Res<(ParserDates.Date, Option<Flag>)>)
    ensures !r.Failure?
    ensures r.Ok? ==> |r.rest| < |s|
    ensures r.Ok? ==> ParserDates.ParseDate(s).Ok? && r.value.0 == ParserDates.ParseDate(s).value
  {
    var date := ParserDates.ParseDate(s);
    if !date.Ok? then Error else Keyword(date.value, date.rest)
  }

  /** What follows the date in the header: blanks, then `txn` or a flag. */
  function Keyword(d: ParserDates.Date, u: string): (r: Res<(ParserDates.Date, Option<Flag>)>)
    ensures !r.Failure?
    ensures r.Ok? ==> |r.rest| < |u| && r.value.0 == d
  {
    var gap := Space1(u);
    if !gap.Ok? then Error else
    var txn := Tag("txn", gap.rest);
    if txn.Ok? then Ok((d, None), txn.rest) else
    var flag := ParseFlag(gap.rest);
    if flag.Ok? then Ok((d, Some(flag.value)), flag.rest) else Error
  }

  /** `txn` gives no flag. */
  lemma HeaderTxn(s: string, d: ParserDates.Date, gap: string, t: string)
    requires ParserDates.ParseDate(s) == Ok(d, gap + t)
    requires gap != [] && forall i :: 0 <= i < |gap| ==> IsBlank(gap[i])
    requires t == [] || !IsBlank(t[0])
    ensures Tag("txn", t).Ok? ==> Header(s) == Ok((d, None), t[3..])
  {
    HeaderDate(s, d, gap + t);
    KeywordOf(d, gap, t);
  }

  /** `*` and `!` give their flag. */
  lemma HeaderFlag(s: string, d: ParserDates.Date, gap: string, t: string)
    requires ParserDates.ParseDate(s) == Ok(d, gap + t)
    requires gap != [] && forall i :: 0 <= i < |gap| ==> IsBlank(gap[i])
    requires t == [] || !IsBlank(t[0])
    ensures ParseFlag(t).Ok? ==> Header(s) == Ok((d, Some(ParseFlag(t).value)), ParseFlag(t).rest)
  {
    HeaderDate(s, d, gap + t);
    KeywordOf(d, gap, t);
    if ParseFlag(t).Ok? {
      FlagIsNotTxn(t);
    }
  }

  /** Anything else is not a transaction, and is not committed to. */
  lemma HeaderNeither(s: string, d: ParserDates.Date, gap: string, t: string)
    requires ParserDates.ParseDate(s) == Ok(d, gap + t)
    requires gap != [] && forall i :: 0 <= i < |gap| ==> IsBlank(gap[i])
    requires t == [] || !IsBlank(t[0])
    ensures !Tag("txn", t).Ok? && !ParseFlag(t).Ok? ==> Header(s).Error?
  {
    HeaderDate(s, d, gap + t);
    KeywordOf(d, gap, t);
  }

  /** A flag is not the start of `txn`. */
  lemma FlagIsNotTxn(t: string)
    requires ParseFlag(t).Ok?
    ensures !Tag("txn", t).Ok?
  {
    if |t| >= 3 {
      assert t[..3][0] == t[0];
    }
  }

  lemma HeaderOf(s: string, d: ParserDates.Date, gap: string, t: string)
    requires ParserDates.ParseDate(s) == Ok(d, gap + t)
    requires gap != [] && forall i :: 0 <= i < |gap| ==> IsBlank(gap[i])
    requires t == [] || !IsBlank(t[0])
    ensures Header(s) == if Tag("txn", t).Ok? then Ok((d, None), Tag("txn", t).rest)
                         else if ParseFlag(t).Ok? then Ok((d, Some(ParseFlag(t).value)), ParseFlag(t).rest)
                         else Error
  {
    HeaderDate(s, d, gap + t);
    KeywordOf(d, gap, t);
  }

  lemma KeywordOf(d: ParserDates.Date, gap: string, t: string)
    requires gap != [] && forall i :: 0 <= i < |gap| ==> IsBlank(gap[i])
    requires t == [] || !IsBlank(t[0])
    ensures Keyword(d, gap + t) == if Tag("txn", t).Ok? then Ok((d, None), Tag("txn", t).rest)
                                   else if ParseFlag(t).Ok? then Ok((d, Some(ParseFlag(t).value)), ParseFlag(t).rest)
                                   else Error
  {
    Space1OfBlanks(gap, t);
  }

  lemma HeaderDate(s: string, d: ParserDates.Date, u: string)
    requires ParserDates.ParseDate(s) == Ok(d, u)
    ensures Header(s) == Keyword(d, u)
  {
  }

  /** The flag character written in the header is the flag read. */
  lemma FlagOfHeader(s: string, d: ParserDates.Date, gap: string, f: Flag, u: string)
    requires ParserDates.ParseDate(s) == Ok(d, gap + ([FlagChar(f)] + u))
    requires gap != [] && forall i :: 0 <= i < |gap| ==> IsBlank(gap[i])
    ensures Header(s) == Ok((d, Some(f)), u)
  {
    HeaderDate(s, d, gap + ([FlagChar(f)] + u));
    KeywordFlag(d, gap, f, u);
  }

  lemma KeywordFlag(d: ParserDates.Date, gap: string, f: Flag, u: string)
    requires gap != [] && forall i :: 0 <= i < |gap| ==> IsBlank(gap[i])
    ensures Keyword(d, gap + ([FlagChar(f)] + u)) == Ok((d, Some(f)), u)
  {
    var t := [FlagChar(f)] + u;
    FlagRoundTrip(f, u);
    FlagIsNotTxn(t);
    KeywordOf(d, gap, t);
  }

  // ---------------------------------------------------------------- postings

  /** `many0(preceded((line_ending, space1), posting))`: postings, each on
    * its own indented line. */
  function PostingLines(s: string): (r: (seq<TransactionPostings.Posting>, string))
    ensures |r.1| <= |s|
    decreases |s|
  {
    var end := LineEnding(s);
    var gap := if end.Ok? then Space1(end.rest) else Error;
    var posting := if gap.Ok? then TransactionPostings.ParsePosting(gap.rest) else Error;
    if !posting.Ok? then ([], s) else
    var more := PostingLines(posting.rest);
    ([posting.value] + more.0, more.1)
  }

  /** An indented line holding a posting adds it in front of the postings of
    * the lines after it. */
  lemma PostingLine(s: string, e: string, gap: string, t: string, p: TransactionPostings.Posting, rest: string)
    requires LineEnding(s) == Ok(e, gap + t)
    requires gap != [] && forall i :: 0 <= i < |gap| ==> IsBlank(gap[i])
    requires t == [] || !IsBlank(t[0])
    requires TransactionPostings.ParsePosting(t) == Ok(p, rest)
    ensures PostingLines(s) == ([p] + PostingLines(rest).0, PostingLines(rest).1)
  {
    Space1OfBlanks(gap, t);
  }

  /** A line that is not indented ends the postings. */
  lemma UnindentedLine(s: string, e: string, t: string)
    requires LineEnding(s) == Ok(e, t)
    requires t == [] || !IsBlank(t[0])
    ensures PostingLines(s) == ([], s)
  {
  }

  // ------------------------------------------------------------ transaction

  /** What follows the description: tags, a comment, the posting lines, and
    * then a line ending or the end of the input, which must be there. */
  function Trailer(u: string): (r: Res<(seq<string>, Option<string>, seq<TransactionPostings.Posting>)>)
    ensures !r.Error?
    ensures r.Ok? ==> |r.rest| <= |u|
  {
    var (tags, afterTags) := Tags(u);
    var (comment, afterComment) := TransactionPostings.OptionalComment(afterTags);
    var (postings, afterPostings) := PostingLines(afterComment);
    var end := LineEnding(afterPostings);
    if end.Ok? then Ok((tags, comment, postings), end.rest) else
    var eof := Eof(afterPostings);
    if eof.Ok? then Ok((tags, comment, postings), eof.rest) else Failure
  }

  /** `opt(preceded(space1, payee_and_narration))`. */
  function OptionalDescription(u: string): (r: (Option<(Option<string>, string)>, string))
    ensures |r.1| <= |u|
    ensures r.0.None? ==> r.1 == u
  {
    var gap := Space1(u);
    var description := if gap.Ok? then Description(gap.rest) else Error;
    if description.Ok? then (Some(description.value), description.rest) else (None, u)
  }

  /** `transaction`. */
  function ParseTransaction(s: string): (r: Res<Transaction>)
    ensures r.Error? <==> Header(s).Error?
    ensures r.Ok? ==> |r.rest| < |s|
    ensures r.Ok? ==> (r.value.date, r.value.flag) == Header(s).value
    ensures r.Ok? && r.value.payee.Some? ==> r.value.narration.Some?
  {
    var header := Header(s);
    if !header.Ok? then Forward(header) else Body(header.value, header.rest)
  }

  /** What follows the header: once it is read, the parser is committed. */
  function Body(h: (ParserDates.Date, Option<Flag>), u: string): (r: Res<Transaction>)
    ensures !r.Error?
    ensures r.Ok? ==> |r.rest| <= |u| && (r.value.date, r.value.flag) == h
    ensures r.Ok? && r.value.payee.Some? ==> r.value.narration.Some?
  {
    var (description, afterDescription) := OptionalDescription(u);
    var trailer := Trailer(afterDescription);
    if !trailer.Ok? then Failure else
    var (payee, narration) := if description.Some? then (description.value.0, Some(description.value.1)) else (None, None);
    var (tags, comment, postings) := trailer.value;
    Ok(Transaction(h.0, h.1, payee, narration, tags, postings, comment), trailer.rest)
  }

  /** Once the header is read, the rest of the transaction is its body. */
  lemma HeaderThenBody(s: string, h: (ParserDates.Date, Option<Flag>), u: string)
    requires Header(s) == Ok(h, u)
    ensures ParseTransaction(s) == Body(h, u)
  {
  }

  // ------------------------------------------------------------- properties

  /** Text that starts no tag, comment or line ending after the blanks. */
  predicate Stuck(t: string) {
    t != [] && !IsBlank(t[0]) && !IsLineBreak(t[0]) && t[0] != '#' && t[0] != ';'
  }

  /** Where the header's remainder starts with neither a description nor a tag,
    * comment or line ending, nothing more of the transaction is read. */
  predicate Junk(t: string) {
    Stuck(t) && t[0] != '"'
  }

  lemma JunkTrailer(gap: string, t: string)
    requires forall i :: 0 <= i < |gap| ==> IsBlank(gap[i])
    requires Stuck(t)
    ensures Trailer(gap + t).Failure?
  {
    JunkReadsNothing(gap, t);
  }

  /** Junk starts no tag, comment, posting line or line ending. */
  lemma JunkReadsNothing(gap: string, t: string)
    requires forall i :: 0 <= i < |gap| ==> IsBlank(gap[i])
    requires Stuck(t)
    ensures Tags(gap + t) == ([], gap + t)
    ensures TransactionPostings.OptionalComment(gap + t) == (None, gap + t)
    ensures PostingLines(gap + t) == ([], gap + t)
    ensures !LineEnding(gap + t).Ok? && !Eof(gap + t).Ok?
  {
    var u := gap + t;
    Space0OfBlanks(gap, t);
    JunkStart(gap, t);
    JunkNoTag(u, t);
    JunkNoComment(u, t);
  }

  lemma JunkStart(gap: string, t: string)
    requires forall i :: 0 <= i < |gap| ==> IsBlank(gap[i])
    requires Stuck(t)
    ensures (gap + t)[0] == if gap == [] then t[0] else gap[0]
    ensures !IsLineBreak((gap + t)[0])
  {
  }

  lemma JunkNoTag(u: string, t: string)
    requires Space0(u) == t && Stuck(t)
    ensures Tags(u) == ([], u)
  {
  }

  lemma JunkNoComment(u: string, t: string)
    requires Space0(u) == t && Stuck(t)
    ensures TransactionPostings.OptionalComment(u) == (None, u)
  {
  }

  /** Junk right after the header (`! test`) is a committed failure. */
  lemma JunkAfterHeader(s: string, h: (ParserDates.Date, Option<Flag>), gap: string, t: string)
    requires Header(s) == Ok(h, gap + t)
    requires forall i :: 0 <= i < |gap| ==> IsBlank(gap[i])
    requires Junk(t)
    ensures ParseTransaction(s).Failure?
  {
    HeaderThenBody(s, h, gap + t);
    JunkBody(h, gap, t);
  }

  lemma JunkBody(h: (ParserDates.Date, Option<Flag>), gap: string, t: string)
    requires forall i :: 0 <= i < |gap| ==> IsBlank(gap[i])
    requires Junk(t)
    ensures Body(h, gap + t).Failure?
  {
    assert OptionalDescription(gap + t).0.None? by {
      Space0OfBlanks(gap, t);
    }
    JunkTrailer(gap, t);
  }

  /** A description written right after the flag, with no blank between
    * them (`*"hello"`), is no description: a committed failure. */
  lemma QuoteAfterFlag(s: string, h: (ParserDates.Date, Option<Flag>), t: string)
    requires Header(s) == Ok(h, "\"" + t)
    ensures ParseTransaction(s).Failure?
  {
    HeaderThenBody(s, h, "\"" + t);
    QuoteBody(h, t);
  }

  lemma QuoteBody(h: (ParserDates.Date, Option<Flag>), t: string)
    ensures Body(h, "\"" + t).Failure?
  {
    var u := "\"" + t;
    assert OptionalDescription(u).0.None? by {
      assert !Space1(u).Ok?;
    }
    var none: string := [];
    assert Trailer(u).Failure? by {
      assert none + u == u;
      JunkTrailer(none, u);
    }
  }

  /** Junk after the description (a posting on the header line) is a
    * committed failure as well. */
  lemma JunkAfterDescription(s: string, h: (ParserDates.Date, Option<Flag>), gap: string, n: string,
                             gap2: string, t: string)
    requires Header(s) == Ok(h, gap + (Quoted(n) + (gap2 + t)))
    requires gap != [] && forall i :: 0 <= i < |gap| ==> IsBlank(gap[i])
    requires forall i :: 0 <= i < |gap2| ==> IsBlank(gap2[i])
    requires Junk(t)
    ensures ParseTransaction(s).Failure?
  {
    var u := gap2 + t;
    NarrationBeforeJunk(gap, n, gap2, t);
    JunkTrailer(gap2, t);
    FailingTrailer(s, h, gap + (Quoted(n) + u), Some((None, n)), u);
  }

  lemma NarrationBeforeJunk(gap: string, n: string, gap2: string, t: string)
    requires gap != [] && forall i :: 0 <= i < |gap| ==> IsBlank(gap[i])
    requires forall i :: 0 <= i < |gap2| ==> IsBlank(gap2[i])
    requires Junk(t)
    ensures OptionalDescription(gap + (Quoted(n) + (gap2 + t))) == (Some((None, n)), gap2 + t)
  {
    var u := gap2 + t;
    assert Space0(u) == t by {
      Space0OfBlanks(gap2, t);
    }
    assert Description(Quoted(n) + u) == Ok((None, n), u) by {
      NarrationOnly(n, u);
    }
    DescriptionAfter(gap, Quoted(n) + u);
  }

  /** A trailer that fails makes the transaction fail. */
  lemma FailingTrailer(s: string, h: (ParserDates.Date, Option<Flag>), u: string,
                       description: Option<(Option<string>, string)>, v: string)
    requires Header(s) == Ok(h, u) && OptionalDescription(u) == (description, v) && Trailer(v).Failure?
    ensures ParseTransaction(s).Failure?
  {
    HeaderThenBody(s, h, u);
  }

  lemma DescriptionAfter(gap: string, d: string)
    requires gap != [] && forall i :: 0 <= i < |gap| ==> IsBlank(gap[i])
    requires d == [] || !IsBlank(d[0])
    ensures OptionalDescription(gap + d) == if Description(d).Ok? then (Some(Description(d).value), Description(d).rest) else (None, gap + d)
  {
    Space0OfBlanks(gap, d);
    assert (gap + d)[0] == gap[0];
  }

  /** A line ending (or the end of the input) after which no posting line
    * follows. */
  predicate EndsHere(rest: string) {
    rest == [] || (LineEnding(rest).Ok? && Space1(LineEnding(rest).rest).Error?)
  }

  function AfterEnd(rest: string): string
    requires EndsHere(rest)
  {
    if rest == [] then [] else LineEnding(rest).rest
  }

  /** Tags at the end of the header are kept, in order. */
  lemma TrailerTags(tags: seq<string>, rest: string)
    requires forall i :: 0 <= i < |tags| ==> IsTagText(tags[i])
    requires EndsHere(rest)
    ensures Trailer(WrittenTags(tags, rest)) == Ok((tags, None, []), AfterEnd(rest))
  {
    assert rest == [] || EndsTag(rest[0]);
    TagsRoundTrip(tags, rest);
    EndOfTrailer(WrittenTags(tags, rest), tags, rest);
  }

  /** Tags, then nothing but the end of the line. */
  lemma EndOfTrailer(u: string, tags: seq<string>, rest: string)
    requires Tags(u) == (tags, rest) && EndsHere(rest)
    ensures Trailer(u) == Ok((tags, None, []), AfterEnd(rest))
  {
    NoCommentAtEnd(rest);
    NoPostingAtEnd(rest);
  }

  /** At the end of the line there is no comment... */
  lemma NoCommentAtEnd(rest: string)
    requires EndsHere(rest)
    ensures TransactionPostings.OptionalComment(rest) == (None, rest)
  {
    Space0OfBlanks([], rest);
  }

  /** ...and no posting line. */
  lemma NoPostingAtEnd(rest: string)
    requires EndsHere(rest)
    ensures PostingLines(rest) == ([], rest)
  {
  }

  /** A trailing comment is kept trimmed. */
  lemma TrailerComment(gap: string, text: string, rest: string)
    requires forall i :: 0 <= i < |gap| ==> IsBlank(gap[i])
    requires forall i :: 0 <= i < |text| ==> NotLineBreak(text[i])
    requires text == [] || text[0] != ';'
    requires EndsHere(rest)
    ensures Trailer(gap + (";" + text + rest)) == Ok(([], Some(Trim(text)), []), AfterEnd(rest))
  {
    var u := gap + (";" + text + rest);
    assert Tags(u) == ([], u) by {
      Space0OfBlanks(gap, ";" + text + rest);
    }
    TransactionPostings.CommentOf(gap, text, rest);
  }

  /** A header line alone (flag and narration) is a transaction without
    * payee, tags, comment or postings. */
  lemma HeaderLineOnly(s: string, d: ParserDates.Date, gap: string, f: Flag, gap2: string, n: string, rest: string)
    requires ParserDates.ParseDate(s) == Ok(d, gap + ([FlagChar(f)] + (gap2 + (Quoted(n) + rest))))
    requires gap != [] && forall i :: 0 <= i < |gap| ==> IsBlank(gap[i])
    requires gap2 != [] && forall i :: 0 <= i < |gap2| ==> IsBlank(gap2[i])
    requires EndsHere(rest)
    ensures ParseTransaction(s) == Ok(Transaction(d, Some(f), None, Some(n), [], [], None), AfterEnd(rest))
  {
    var u := gap2 + (Quoted(n) + rest);
    FlagOfHeader(s, d, gap, f, u);
    NarrationLine(s, (d, Some(f)), gap2, n, rest);
  }

  /** After the header, blanks, a quoted narration and the end of the line. */
  lemma NarrationLine(s: string, h: (ParserDates.Date, Option<Flag>), gap2: string, n: string, rest: string)
    requires Header(s) == Ok(h, gap2 + (Quoted(n) + rest))
    requires gap2 != [] && forall i :: 0 <= i < |gap2| ==> IsBlank(gap2[i])
    requires EndsHere(rest)
    ensures ParseTransaction(s) == Ok(Transaction(h.0, h.1, None, Some(n), [], [], None), AfterEnd(rest))
  {
    HeaderThenBody(s, h, gap2 + (Quoted(n) + rest));
    NarrationBody(h, gap2, n, rest);
  }

  lemma NarrationBody(h: (ParserDates.Date, Option<Flag>), gap2: string, n: string, rest: string)
    requires gap2 != [] && forall i :: 0 <= i < |gap2| ==> IsBlank(gap2[i])
    requires EndsHere(rest)
    ensures Body(h, gap2 + (Quoted(n) + rest)) == Ok(Transaction(h.0, h.1, None, Some(n), [], [], None), AfterEnd(rest))
  {
    assert rest == [] || !IsBlank(rest[0]);
    NarrationAfterBlanks(gap2, n, rest);
    EmptyTrailer(rest);
  }

  lemma NarrationAfterBlanks(gap: string, n: string, rest: string)
    requires gap != [] && forall i :: 0 <= i < |gap| ==> IsBlank(gap[i])
    requires rest == [] || !IsBlank(rest[0])
    ensures OptionalDescription(gap + (Quoted(n) + rest)) == (Some((None, n)), rest)
  {
    assert (Quoted(n) + rest)[0] == '"';
    DescriptionAfter(gap, Quoted(n) + rest);
    NarrationOnly(n, rest);
  }

  /** Nothing but the end of the line. */
  lemma EmptyTrailer(rest: string)
    requires EndsHere(rest)
    ensures Trailer(rest) == Ok(([], None, []), AfterEnd(rest))
  {
    TrailerTags([], rest);
  }
}
