/**
 * src/transacion/posting.rs: the posting of the earliest transaction
 * grammar.  After an optional flag come the account and, each optional, an
 * amount and a price; there are no lots and no comments.  The optional flag
 * and amount are the same combinators as in src/transaction/posting.rs and
 * are taken from that model.
 */
module EarlyPostings {
  import opened Nom
  import Accounts
  import ExprAmount
  import opened TransactionFlag
  import TransactionPostings

  datatype PriceType = UnitPrice | TotalCost

  datatype Posting = Posting(flag: Option<Flag>, account: Accounts.Account, amount: Option<ExprAmount.Amount>,
                             price: Option<(PriceType, ExprAmount.Amount)>)

  /** `@@` is tried first and is a total cost; a single `@` is a unit price. */
  function PriceKind(s: string): (r: Res<PriceType>)
    ensures !r.Failure?
    ensures r.Ok? <==> s != [] && s[0] == '@'
    ensures r.Ok? ==> (r.value == TotalCost <==> |s| >= 2 && s[1] == '@')
    ensures r.Ok? ==> r.rest == if r.value == TotalCost then s[2..] else s[1..]
  {
    var total := Tag("@@", s);
    if total.Ok? then Ok(TotalCost, total.rest) else
    var unit := Char('@', s);
    if unit.Ok? then Ok(UnitPrice, unit.rest) else Error
  }

  /** `price`: the kind, blanks, an amount. */
  function ParsePrice(s: string): (r: Res<(PriceType, ExprAmount.Amount)>)
    ensures !r.Failure?
    ensures r.Ok? ==> |r.rest| < |s|
  {
    var kind := PriceKind(s);
    if !kind.Ok? then Error else
    var gap := Space1(kind.rest);
    if !gap.Ok? then Error else
    var a := ExprAmount.ParseAmount(gap.rest);
    if !a.Ok? then Error else Ok((kind.value, a.value), a.rest)
  }

  /** `opt(preceded(space1, price))`. */
  function OptionalPrice(s: string): (r: (Option<(PriceType, ExprAmount.Amount)>, string))
    ensures |r.1| <= |s|
    ensures r.0.None? ==> r.1 == s
  {
    var gap := Space1(s);
    var p := if gap.Ok? then ParsePrice(gap.rest) else Error;
    if p.Ok? then (Some(p.value), p.rest) else (None, s)
  }

  /** `posting`. */
  function ParsePosting(s: string): (r: Res<Posting>)
    ensures !r.Failure?
    ensures r.Ok? ==> |r.rest| < |s|
  {
    var (flag, afterFlag) := TransactionPostings.LeadingFlag(s);
    var account := Accounts.ParseAccount(afterFlag);
    if !account.Ok? then Error else
    var (amount, afterAmount) := TransactionPostings.OptionalAmount(account.rest);
    var (price, rest) := OptionalPrice(afterAmount);
    Ok(Posting(flag, account.value, amount, price), rest)
  }

  // ------------------------------------------------------------- properties

  /** `@@`, blanks and an amount are a total cost; `@`, blanks and an amount
    * a unit price. */
  lemma PriceOf(marker: string, gap: string, t: string, a: ExprAmount.Amount, rest: string)
    requires marker == "@" || marker == "@@"
    requires gap != [] && forall i :: 0 <= i < |gap| ==> IsBlank(gap[i])
    requires t == [] || !IsBlank(t[0])
    requires ExprAmount.ParseAmount(t) == Ok(a, rest)
    ensures ParsePrice(marker + (gap + t)) == Ok((if marker == "@@" then TotalCost else UnitPrice, a), rest)
  {
    var s := marker + (gap + t);
    assert PriceKind(s) == Ok(if marker == "@@" then TotalCost else UnitPrice, gap + t) by {
      if marker == "@@" {
        assert s[2..] == gap + t;
      } else {
        assert s[1..] == gap + t && s[1] == gap[0];
      }
    }
    assert Space1(gap + t) == Ok(gap, t) by {
      Space0OfBlanks(gap, t);
      assert (gap + t)[0] == gap[0];
    }
  }

  /** The price marker must be followed by a blank. */
  lemma PriceNeedsBlank(marker: string, t: string)
    requires marker == "@" || marker == "@@"
    requires t != [] && !IsBlank(t[0]) && t[0] != '@'
    ensures ParsePrice(marker + t).Error?
  {
    var s := marker + t;
    if marker == "@@" {
      assert s[2..] == t;
    } else {
      assert s[1..] == t && s[1] == t[0];
    }
  }

  /** A posting starts with a flag or with the initial of its account; in
    * particular empty input is not a posting. */
  lemma PostingStart(s: string)
    requires ParsePosting(s).Ok?
    ensures s != [] && (s[0] == '*' || s[0] == '!' || IsAsciiUpper(s[0]))
  {
    var (flag, afterFlag) := TransactionPostings.LeadingFlag(s);
    if flag.None? {
      Accounts.AccountStart(s);
    }
  }

  /** A flag must be followed by a blank. */
  lemma FlagNeedsBlank(f: Flag, rest: string)
    requires rest == [] || !IsBlank(rest[0])
    ensures ParsePosting([FlagChar(f)] + rest).Error?
  {
    var s := [FlagChar(f)] + rest;
    assert s[1..] == rest;
    if Accounts.ParseAccount(s).Ok? {
      Accounts.AccountStart(s);
    }
  }

  /** The account is required and the amount is optional: an account that is
    * not followed by a blank is a posting of that account alone. */
  lemma AccountOnly(s: string, a: Accounts.Account, rest: string)
    requires s == [] || (s[0] != '*' && s[0] != '!')
    requires Accounts.ParseAccount(s) == Ok(a, rest)
    requires rest == [] || !IsBlank(rest[0])
    ensures ParsePosting(s) == Ok(Posting(None, a, None, None), rest)
  {
  }

  /** An amount followed by a price. */
  lemma AmountThenPrice(s: string, a: Accounts.Account, gap: string, t: string, amount: ExprAmount.Amount,
                        u: string, p: (PriceType, ExprAmount.Amount), rest: string)
    requires s == [] || (s[0] != '*' && s[0] != '!')
    requires Accounts.ParseAccount(s) == Ok(a, gap + t)
    requires gap != [] && forall i :: 0 <= i < |gap| ==> IsBlank(gap[i])
    requires t == [] || !IsBlank(t[0])
    requires ExprAmount.ParseAmount(t) == Ok(amount, u)
    requires OptionalPrice(u) == (Some(p), rest)
    ensures ParsePosting(s) == Ok(Posting(None, a, Some(amount), Some(p)), rest)
  {
    assert TransactionPostings.OptionalAmount(gap + t) == (Some(amount), u) by {
      Space0OfBlanks(gap, t);
      assert (gap + t)[0] == gap[0];
    }
  }
}
