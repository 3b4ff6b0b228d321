/**
 * src/transacion/mod.rs: the transaction of the earliest grammar.  `txn` or
 * a flag character, blanks, a description (optionally preceded by a payee),
 * optional blanks and a line feed, then one or more postings.
 *
 * As written, the postings are read with `posting` directly after the line
 * feed: `posting` neither skips indentation nor consumes a line ending, so
 * an indented posting is rejected and a second posting line is never read.
 * `ParseTransactionAsWritten` keeps that behaviour; `ParseTransaction` reads
 * each posting on an indented line of its own.
 */
module EarlyTransactions {
  import opened Nom
  import Transactions
  import EarlyPostings

  datatype Transaction = Transaction(flag: Option<char>, payee: Option<string>, description: string,
                                     postings: seq<EarlyPostings.Posting>)

  /** `txn` is no flag; `*` or `!` is kept as the character. */
  function ParseFlag(s: string): (r: Res<Option<char>>)
    ensures !r.Failure?
    ensures r.Ok? <==> Tag("txn", s).Ok? || (s != [] && (s[0] == '*' || s[0] == '!'))
    ensures r.Ok? && r.value.None? ==> s == "txn" + r.rest
    ensures r.Ok? && r.value.Some? ==> s != [] && r.value.value == s[0] && r.rest == s[1..]
  {
    var txn := Tag("txn", s);
    if txn.Ok? then Ok(None, txn.rest) else
    if s != [] && (s[0] == '*' || s[0] == '!') then Ok(Some(s[0]), s[1..]) else Error
  }

  /** The header: the flag, `delimited(space1, payee_and_desc, (space0, '\n'))`. */
  function ParseHeader(s: string): (r: Res<(Option<char>, (Option<string>, string))>)
    ensures !r.Failure?
    ensures r.Ok? ==> |r.rest| < |s|
  {
    var flag := ParseFlag(s);
    if !flag.Ok? then Error else
    var gap := Space1(flag.rest);
    if !gap.Ok? then Error else
    var description := Transactions.Description(gap.rest);
    if !description.Ok? then Error else
    var end := Char('\n', Space0(description.rest));
    if !end.Ok? then Error else Ok((flag.value, description.value), end.rest)
  }

  function Make(header: (Option<char>, (Option<string>, string)), postings: seq<EarlyPostings.Posting>): Transaction {
    Transaction(header.0, header.1.0, header.1.1, postings)
  }

  // --------------------------------------------------------------- as written

  /** The postings after the first, read back to back by `posting`. */
  function MorePostings(s: string): (r: (seq<EarlyPostings.Posting>, string))
    ensures |r.1| <= |s|
    decreases |s|
  {
    var p := EarlyPostings.ParsePosting(s);
    if !p.Ok? then ([], s) else
    var more := MorePostings(p.rest);
    ([p.value] + more.0, more.1)
  }

  /** `many1(posting)`. */
  function PostingsAsWritten(s: string): (r: Res<seq<EarlyPostings.Posting>>)
    ensures !r.Failure?
    ensures r.Ok? <==> EarlyPostings.ParsePosting(s).Ok?
    ensures r.Ok? ==> r.value != [] && |r.rest| < |s|
  {
    var first := EarlyPostings.ParsePosting(s);
    if !first.Ok? then Error else
    var more := MorePostings(first.rest);
    Ok([first.value] + more.0, more.1)
  }

  /** `transaction` as written. */
  function ParseTransactionAsWritten(s: string): (r: Res<Transaction>)
    ensures !r.Failure?
    ensures r.Ok? ==> ParseHeader(s).Ok? && r.value == Make(ParseHeader(s).value, r.value.postings)
    ensures r.Ok? ==> r.value.postings != []
  {
    var header := ParseHeader(s);
    if !header.Ok? then Error else
    var postings := PostingsAsWritten(header.rest);
    if !postings.Ok? then Error else Ok(Make(header.value, postings.value), postings.rest)
  }

  /** The first posting of the source's own example is indented: as written,
    * the transaction is rejected. */
  lemma IndentedPostingRejected(s: string)
    requires ParseHeader(s).Ok?
    requires ParseHeader(s).rest != [] && IsBlank(ParseHeader(s).rest[0])
    ensures ParseTransactionAsWritten(s).Error?
  {
    var rest := ParseHeader(s).rest;
    if EarlyPostings.ParsePosting(rest).Ok? {
      EarlyPostings.PostingStart(rest);
    }
  }

  /** And a posting followed by a line break is the last one read: as
    * written, postings on separate lines are never both read. */
  lemma SecondLineNotRead(t: string, p: EarlyPostings.Posting, rest: string)
    requires EarlyPostings.ParsePosting(t) == Ok(p, rest)
    requires rest != [] && IsLineBreak(rest[0])
    ensures PostingsAsWritten(t) == Ok([p], rest)
  {
    assert MorePostings(rest) == ([], rest) by {
      if EarlyPostings.ParsePosting(rest).Ok? {
        EarlyPostings.PostingStart(rest);
      }
    }
    assert [p] + [] == [p];
  }

  // ---------------------------------------------------------------- corrected

  /** A posting line: blanks, a posting, blanks, then a line feed or the end
    * of the input. */
  function PostingLine(s: string): (r: Res<EarlyPostings.Posting>)
    ensures !r.Failure?
    ensures r.Ok? ==> |r.rest| < |s|
  {
    var gap := Space1(s);
    if !gap.Ok? then Error else
    var p := EarlyPostings.ParsePosting(gap.rest);
    if !p.Ok? then Error else
    var after := Space0(p.rest);
    var end := Char('\n', after);
    if end.Ok? then Ok(p.value, end.rest) else
    var eof := Eof(after);
    if eof.Ok? then Ok(p.value, eof.rest) else Error
  }

  function MorePostingLines(s: string): (r: (seq<EarlyPostings.Posting>, string))
    ensures |r.1| <= |s|
    decreases |s|
  {
    var p := PostingLine(s);
    if !p.Ok? then ([], s) else
    var more := MorePostingLines(p.rest);
    ([p.value] + more.0, more.1)
  }

  /** `many1` of posting lines. */
  function PostingLines(s: string): (r: Res<seq<EarlyPostings.Posting>>)
    ensures !r.Failure?
    ensures r.Ok? <==> PostingLine(s).Ok?
    ensures r.Ok? ==> r.value != [] && |r.rest| < |s|
  {
    var first := PostingLine(s);
    if !first.Ok? then Error else
    var more := MorePostingLines(first.rest);
    Ok([first.value] + more.0, more.1)
  }

  /** `transaction`, reading one indented posting per line. */
  function ParseTransaction(s: string): (r: Res<Transaction>)
    ensures !r.Failure?
    ensures r.Ok? ==> ParseHeader(s).Ok? && r.value == Make(ParseHeader(s).value, r.value.postings)
    ensures r.Ok? ==> r.value.postings != []
  {
    var header := ParseHeader(s);
    if !header.Ok? then Error else
    var postings := PostingLines(header.rest);
    if !postings.Ok? then Error else Ok(Make(header.value, postings.value), postings.rest)
  }

  /** An indented posting ending its line is read, with its line feed. */
  lemma PostingLineOf(gap: string, t: string, p: EarlyPostings.Posting, gap2: string, rest: string)
    requires gap != [] && forall i :: 0 <= i < |gap| ==> IsBlank(gap[i])
    requires t == [] || !IsBlank(t[0])
    requires forall i :: 0 <= i < |gap2| ==> IsBlank(gap2[i])
    requires EarlyPostings.ParsePosting(t) == Ok(p, gap2 + ("\n" + rest))
    ensures PostingLine(gap + t) == Ok(p, rest)
  {
    BlanksAround(gap, t, gap2, "\n" + rest);
    LineOf(gap + t, p, gap2 + ("\n" + rest), rest);
  }

  lemma BlanksAround(gap: string, t: string, gap2: string, line: string)
    requires gap != [] && forall i :: 0 <= i < |gap| ==> IsBlank(gap[i])
    requires t == [] || !IsBlank(t[0])
    requires forall i :: 0 <= i < |gap2| ==> IsBlank(gap2[i])
    requires line != [] && line[0] == '\n'
    ensures Space1(gap + t) == Ok(gap, t) && Space0(gap2 + line) == line
  {
    Space0OfBlanks(gap, t);
    assert (gap + t)[0] == gap[0];
    Space0OfBlanks(gap2, line);
  }

  lemma LineOf(s: string, p: EarlyPostings.Posting, after: string, rest: string)
    requires Space1(s).Ok? && EarlyPostings.ParsePosting(Space1(s).rest) == Ok(p, after)
    requires Space0(after) == "\n" + rest
    ensures PostingLine(s) == Ok(p, rest)
  {
    assert ("\n" + rest)[1..] == rest;
  }

  /** Posting lines are read one after another, in order, up to the first line
    * that is not one. */
  lemma {:induction false} PostingLinesOrder(s: string)
    requires PostingLine(s).Ok?
    ensures var lines := PostingLines(s);
            lines.Ok? && lines.value[0] == PostingLine(s).value &&
            lines.value[1..] == MorePostingLines(PostingLine(s).rest).0 &&
            !PostingLine(lines.rest).Ok?
  {
    MoreLinesStop(PostingLine(s).rest);
  }

  lemma {:induction false} MoreLinesStop(s: string)
    ensures !PostingLine(MorePostingLines(s).1).Ok?
    decreases |s|
  {
    var p := PostingLine(s);
    if p.Ok? {
      MoreLinesStop(p.rest);
    }
  }

  // ------------------------------------------------------------- both versions

  /** Another keyword (`open ...`) is not a transaction. */
  lemma OtherKeywordRejected(s: string)
    requires !Tag("txn", s).Ok? && (s == [] || (s[0] != '*' && s[0] != '!'))
    ensures ParseTransactionAsWritten(s).Error? && ParseTransaction(s).Error?
  {
  }

  /** The description is mandatory: the flag and blanks must be followed by a
    * quoted string. */
  lemma DescriptionRequired(s: string, gap: string, t: string)
    requires ParseFlag(s).Ok? && ParseFlag(s).rest == gap + t
    requires forall i :: 0 <= i < |gap| ==> IsBlank(gap[i])
    requires t == [] || (!IsBlank(t[0]) && t[0] != '"')
    ensures ParseHeader(s).Error?
  {
    Space0OfBlanks(gap, t);
  }

  /** The description ends its line: after it only blanks and a line feed may
    * come, so neither `\r\n` nor anything else ends the header. */
  lemma HeaderLineEnd(s: string, d: (Option<string>, string), gap: string, t: string)
    requires ParseFlag(s).Ok? && Space1(ParseFlag(s).rest).Ok?
    requires Transactions.Description(Space1(ParseFlag(s).rest).rest) == Ok(d, gap + t)
    requires forall i :: 0 <= i < |gap| ==> IsBlank(gap[i])
    requires t == [] || !IsBlank(t[0])
    ensures ParseHeader(s).Ok? <==> t != [] && t[0] == '\n'
    ensures ParseHeader(s).Ok? ==> ParseHeader(s).value == (ParseFlag(s).value, d) && ParseHeader(s).rest == t[1..]
  {
    assert Space0(gap + t) == t by {
      Space0OfBlanks(gap, t);
    }
    HeaderEnd(s, d, t);
  }

  lemma HeaderEnd(s: string, d: (Option<string>, string), t: string)
    requires ParseFlag(s).Ok? && Space1(ParseFlag(s).rest).Ok?
    requires var description := Transactions.Description(Space1(ParseFlag(s).rest).rest);
             description.Ok? && description.value == d && Space0(description.rest) == t
    ensures ParseHeader(s).Ok? <==> t != [] && t[0] == '\n'
    ensures ParseHeader(s).Ok? ==> ParseHeader(s).value == (ParseFlag(s).value, d) && ParseHeader(s).rest == t[1..]
  {
  }
}
