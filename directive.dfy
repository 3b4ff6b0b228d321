/**
 * src/directive.rs: a directive is one of the entries of a ledger, and
 * `directive` tries the parsers of the kinds in a fixed order, transaction,
 * price, open, close, balance assertion, pad and include, keeping the first
 * that does not fail recoverably.  The `close` parser is not part of this
 * model and is a parameter.
 */
module Directives {
  import opened Nom
  import ParserDates
  import Transactions
  import Prices
  import Opens
  import Closes
  import Assertions
  import Pads
  import Includes
  import Accounts
  import TransactionFlag

  datatype Directive =
    | Transaction(transaction: Transactions.Transaction)
    | Price(price: Prices.Price)
    | Open(opening: Opens.Open)
    | Close(closing: Closes.Close)
    | Assertion(assertion: Assertions.Assertion)
    | Include(inclusion: Includes.Include)
    | Pad(pad: Pads.Pad)

  /** The parser of `close` directives. */
  type CloseParser = string -> Res<Closes.Close>

  /** `as_transaction` and `into_transaction`: the transaction, when the
    * directive is one. */
  function AsTransaction(d: Directive): (r: Option<Transactions.Transaction>)
    ensures r.Some? <==> d.Transaction?
    ensures r.Some? ==> r.value == d.transaction
  {
    match d
    case Transaction(t) => Some(t)
    case _ => None
  }

  /** `date`: the date of the directive; an include has none. */
  function Date(d: Directive): (r: Option<ParserDates.Date>)
    ensures r.None? <==> d.Include?
  {
    match d
    case Transaction(t) => Some(t.date)
    case Open(o) => Some(o.date)
    case Close(c) => Some(c.date)
    case Price(p) => Some(p.date)
    case Assertion(a) => Some(a.date)
    case Pad(p) => Some(p.date)
    case Include(_) => None
  }

  /** What each parser tried by `directive` makes of the same input. */
  datatype Attempts = Attempts(
    transaction: Res<Transactions.Transaction>,
    price: Res<Prices.Price>,
    opening: Res<Opens.Open>,
    closing: Res<Closes.Close>,
    assertion: Res<Assertions.Assertion>,
    pad: Res<Pads.Pad>,
    inclusion: Res<Includes.Include>)

  function Attempt(close: CloseParser, s: string): Attempts {
    Attempts(Transactions.ParseTransaction(s), Prices.Parse(s), Opens.Parse(s), close(s),
             Assertions.Parse(s), Pads.Parse(s), Includes.Parse(s))
  }

  /** The alternatives of `directive`, in the order they are tried, each
    * result mapped to a directive. */
  function Alternatives(at: Attempts): (rs: seq<Res<Directive>>)
    ensures |rs| == 7
  {
    var t, p, o, c := at.transaction, at.price, at.opening, at.closing;
    var a, d, i := at.assertion, at.pad, at.inclusion;
    [if t.Ok? then Ok(Transaction(t.value), t.rest) else Forward(t),
     if p.Ok? then Ok(Price(p.value), p.rest) else Forward(p),
     if o.Ok? then Ok(Open(o.value), o.rest) else Forward(o),
     if c.Ok? then Ok(Close(c.value), c.rest) else Forward(c),
     if a.Ok? then Ok(Assertion(a.value), a.rest) else Forward(a),
     if d.Ok? then Ok(Pad(d.value), d.rest) else Forward(d),
     if i.Ok? then Ok(Include(i.value), i.rest) else Forward(i)]
  }

  /** `alt` of the seven alternatives. */
  function Alt(at: Attempts): (r: Res<Directive>)
    ensures r.Error? <==> forall i :: 0 <= i < 7 ==> Alternatives(at)[i].Error?
  {
    var alts := Alternatives(at);
    if !alts[0].Error? then alts[0] else
    if !alts[1].Error? then alts[1] else
    if !alts[2].Error? then alts[2] else
    if !alts[3].Error? then alts[3] else
    if !alts[4].Error? then alts[4] else
    if !alts[5].Error? then alts[5] else
    alts[6]
  }

  /** `directive`. */
  function ParseDirective(close: CloseParser, s: string): Res<Directive> {
    Alt(Attempt(close, s))
  }

  // ------------------------------------------------------------- properties

  /** The alternatives are tried in order and the first one that does not fail
    * recoverably decides the result. */
  lemma AltIsFirstSuccess(at: Attempts)
    ensures Alt(at) == FirstSuccess(Alternatives(at))
  {
    var rs := Alternatives(at);
    if !rs[0].Error? { FirstSuccessAt(rs, 0); }
    else if !rs[1].Error? { FirstSuccessAt(rs, 1); }
    else if !rs[2].Error? { FirstSuccessAt(rs, 2); }
    else if !rs[3].Error? { FirstSuccessAt(rs, 3); }
    else if !rs[4].Error? { FirstSuccessAt(rs, 4); }
    else if !rs[5].Error? { FirstSuccessAt(rs, 5); }
    else if !rs[6].Error? { FirstSuccessAt(rs, 6); }
  }

  lemma FirstSuccessWins(close: CloseParser, s: string)
    ensures ParseDirective(close, s) == FirstSuccess(Alternatives(Attempt(close, s)))
  {
    AltIsFirstSuccess(Attempt(close, s));
  }

  /** Which kind of directive is read: a kind is read exactly when its parser
    * succeeds and every parser tried before it fails recoverably, and the
    * directive then holds that parser's value. */
  lemma AltKinds(at: Attempts)
    ensures var r := Alt(at);
            (r.Ok? && r.value.Transaction? <==> at.transaction.Ok?) &&
            (r.Ok? && r.value.Price? <==> at.transaction.Error? && at.price.Ok?) &&
            (r.Ok? && r.value.Open? <==> at.transaction.Error? && at.price.Error? && at.opening.Ok?) &&
            (r.Ok? && r.value.Close? <==> at.transaction.Error? && at.price.Error? && at.opening.Error? &&
                                          at.closing.Ok?) &&
            (r.Ok? && r.value.Assertion? <==> at.transaction.Error? && at.price.Error? && at.opening.Error? &&
                                              at.closing.Error? && at.assertion.Ok?) &&
            (r.Ok? && r.value.Pad? <==> at.transaction.Error? && at.price.Error? && at.opening.Error? &&
                                        at.closing.Error? && at.assertion.Error? && at.pad.Ok?) &&
            (r.Ok? && r.value.Include? <==> at.transaction.Error? && at.price.Error? && at.opening.Error? &&
                                            at.closing.Error? && at.assertion.Error? && at.pad.Error? &&
                                            at.inclusion.Ok?)
    ensures var r := Alt(at);
            (r.Ok? && r.value.Transaction? ==> r.value.transaction == at.transaction.value && r.rest == at.transaction.rest) &&
            (r.Ok? && r.value.Price? ==> r.value.price == at.price.value && r.rest == at.price.rest) &&
            (r.Ok? && r.value.Open? ==> r.value.opening == at.opening.value && r.rest == at.opening.rest) &&
            (r.Ok? && r.value.Close? ==> r.value.closing == at.closing.value && r.rest == at.closing.rest) &&
            (r.Ok? && r.value.Assertion? ==> r.value.assertion == at.assertion.value && r.rest == at.assertion.rest) &&
            (r.Ok? && r.value.Pad? ==> r.value.pad == at.pad.value && r.rest == at.pad.rest) &&
            (r.Ok? && r.value.Include? ==> r.value.inclusion == at.inclusion.value && r.rest == at.inclusion.rest)
  {
  }

  /** A parsed directive other than a `close` carries the date its text starts
    * with; an include has no date. */
  lemma ParsedDate(close: CloseParser, s: string)
    requires ParseDirective(close, s).Ok?
    ensures var d := ParseDirective(close, s).value;
            (d.Include? ==> Date(d).None?) &&
            (!d.Include? && !d.Close? ==> ParserDates.ParseDate(s).Ok? && Date(d) == Some(ParserDates.ParseDate(s).value))
  {
    var at := Attempt(close, s);
    AltKinds(at);
    if at.transaction.Ok? {
      TransactionDate(s);
    }
  }

  lemma TransactionDate(s: string)
    requires Transactions.ParseTransaction(s).Ok?
    ensures ParserDates.ParseDate(s).Ok? && Transactions.ParseTransaction(s).value.date == ParserDates.ParseDate(s).value
  {
  }

  /** A transaction header followed by junk commits: the whole directive
    * fails and no other kind is tried. */
  lemma JunkAfterTransactionHeader(close: CloseParser, s: string, h: (ParserDates.Date, Option<TransactionFlag.Flag>),
                                   gap: string, t: string)
    requires Transactions.Header(s) == Ok(h, gap + t)
    requires forall i :: 0 <= i < |gap| ==> IsBlank(gap[i])
    requires Transactions.Junk(t)
    ensures ParseDirective(close, s).Failure?
  {
    Transactions.JunkAfterHeader(s, h, gap, t);
    Commits(Attempt(close, s));
  }

  /** An alternative that does not fail recoverably is the result, whatever
    * the ones after it would make of the input. */
  lemma Commits(at: Attempts)
    requires !at.transaction.Error?
    ensures Alt(at) == Alternatives(at)[0]
  {
  }

  /** Input that starts with a blank, or is empty, is a directive of no kind
    * but possibly `close`: only the `close` parser decides the result. */
  lemma BlankStart(close: CloseParser, s: string)
    requires s == [] || IsBlank(s[0])
    ensures ParseDirective(close, s) == Alternatives(Attempt(close, s))[3]
    ensures ParseDirective(close, s).Error? <==> close(s).Error?
  {
    NotDated(s);
    NotIncluded(s);
    OnlyClose(Attempt(close, s));
  }

  lemma OnlyClose(at: Attempts)
    requires at.transaction.Error? && at.price.Error? && at.opening.Error?
    requires at.assertion.Error? && at.pad.Error? && at.inclusion.Error?
    ensures Alt(at) == Alternatives(at)[3]
    ensures Alt(at).Error? <==> at.closing.Error?
  {
  }

  lemma NotIncluded(s: string)
    requires s == [] || IsBlank(s[0])
    ensures Includes.Parse(s).Error?
  {
  }

  lemma NotDated(s: string)
    requires s == [] || !IsDigit(s[0])
    ensures Transactions.ParseTransaction(s).Error? && Prices.Parse(s).Error? && Opens.Parse(s).Error?
    ensures Assertions.Parse(s).Error? && Pads.Parse(s).Error?
  {
    ParserDates.ParseDateNeedsDigit(s);
  }

  /** A `pad` line is a pad directive whose first account is the target and
    * second the source, provided it is not taken as a `close`. */
  lemma PadOf(close: CloseParser, s: string, d: ParserDates.Date, gap: string, gap2: string, t: string,
              target: Accounts.Account, gap3: string, w: string, source: Accounts.Account, rest: string)
    requires ParserDates.ParseDate(s) == Ok(d, gap + ("pad" + (gap2 + t)))
    requires gap != [] && forall i :: 0 <= i < |gap| ==> IsBlank(gap[i])
    requires gap2 != [] && forall i :: 0 <= i < |gap2| ==> IsBlank(gap2[i])
    requires Accounts.ParseAccount(t) == Ok(target, gap3 + w)
    requires gap3 != [] && forall i :: 0 <= i < |gap3| ==> IsBlank(gap3[i])
    requires Accounts.ParseAccount(w) == Ok(source, rest)
    requires close(s).Error?
    ensures var r := ParseDirective(close, s);
            r.Ok? && r.value == Pad(Pads.Pad(d, target, source)) && r.rest == rest
  {
    Pads.ParseOf(s, d, gap, gap2, t, target, gap3, w, source, rest);
    OtherKeyword(s, d, gap, "pad" + (gap2 + t));
    PadWins(close, s);
  }

  lemma PadWins(close: CloseParser, s: string)
    requires Transactions.ParseTransaction(s).Error? && Prices.Parse(s).Error? && Opens.Parse(s).Error?
    requires close(s).Error? && Assertions.Parse(s).Error? && Pads.Parse(s).Ok?
    ensures var r := ParseDirective(close, s);
            r.Ok? && r.value == Pad(Pads.Parse(s).value) && r.rest == Pads.Parse(s).rest
  {
    AltKinds(Attempt(close, s));
  }

  /** After a date and blanks, the keyword `pad` is none of the keywords of
    * the kinds tried before it. */
  lemma OtherKeyword(s: string, d: ParserDates.Date, gap: string, v: string)
    requires ParserDates.ParseDate(s) == Ok(d, gap + v)
    requires gap != [] && forall i :: 0 <= i < |gap| ==> IsBlank(gap[i])
    requires |v| >= 3 && v[..3] == "pad"
    ensures Transactions.ParseTransaction(s).Error? && Prices.Parse(s).Error?
    ensures Opens.Parse(s).Error? && Assertions.Parse(s).Error?
  {
    NotTransaction(s, d, gap, v);
    KeywordsDiffer(gap, v);
  }

  lemma NotTransaction(s: string, d: ParserDates.Date, gap: string, v: string)
    requires ParserDates.ParseDate(s) == Ok(d, gap + v)
    requires gap != [] && forall i :: 0 <= i < |gap| ==> IsBlank(gap[i])
    requires |v| >= 3 && v[..3] == "pad"
    ensures Transactions.ParseTransaction(s).Error?
  {
    NeitherTxnNorFlag(v);
    Transactions.HeaderNeither(s, d, gap, v);
  }

  lemma NeitherTxnNorFlag(v: string)
    requires |v| >= 3 && v[..3] == "pad"
    ensures v != [] && !IsBlank(v[0])
    ensures !Tag("txn", v).Ok? && !TransactionFlag.ParseFlag(v).Ok?
  {
    assert v[0] == 'p';
  }

  lemma KeywordsDiffer(gap: string, v: string)
    requires gap != [] && forall i :: 0 <= i < |gap| ==> IsBlank(gap[i])
    requires |v| >= 3 && v[..3] == "pad"
    ensures Space1(gap + v) == Ok(gap, v) && Space1Streaming(gap + v) == Ok(gap, v)
    ensures !Tag("price", v).Ok? && !Tag("open", v).Ok? && !Tag("balance", v).Ok?
  {
    assert v[0] == 'p' && v[1] == 'a';
    Space1OfBlanks(gap, v);
  }
}
