/**
 * src/pad.rs: the `pad` directive, a date, the keyword `pad` between blanks,
 * the account to pad (the target), blanks, and the account the padding is
 * taken from (the source).
 */
module Pads {
  import opened Nom
  import ParserDates
  import Accounts

  datatype Pad = Pad(date: ParserDates.Date, targetAccount: Accounts.Account, sourceAccount: Accounts.Account)

  /** `pad`. */
  function Parse(s: string): (r: Res<Pad>)
    ensures !r.Failure?
    ensures r.Ok? ==> ParserDates.ParseDate(s).Ok? && r.value.date == ParserDates.ParseDate(s).value
    ensures r.Ok? ==> |r.rest| < |s|
  {
    var date := ParserDates.ParseDate(s);
    if !date.Ok? then Forward(date) else
    var gap := Space1(date.rest);
    if !gap.Ok? then Forward(gap) else
    var keyword := Tag("pad", gap.rest);
    if !keyword.Ok? then Forward(keyword) else
    var gap2 := Space1(keyword.rest);
    if !gap2.Ok? then Forward(gap2) else
    var target := Accounts.ParseAccount(gap2.rest);
    if !target.Ok? then Forward(target) else
    var gap3 := Space1(target.rest);
    if !gap3.Ok? then Forward(gap3) else
    var source := Accounts.ParseAccount(gap3.rest);
    if !source.Ok? then Forward(source) else
    Ok(Pad(date.value, target.value, source.value), source.rest)
  }

  // ------------------------------------------------------------- properties

  /** The first account written is the target and the second the source. */
  lemma ParseOf(s: string, d: ParserDates.Date, gap: string, gap2: string, t: string,
                target: Accounts.Account, gap3: string, w: string, source: Accounts.Account, rest: string)
    requires ParserDates.ParseDate(s) == Ok(d, gap + ("pad" + (gap2 + t)))
    requires gap != [] && forall i :: 0 <= i < |gap| ==> IsBlank(gap[i])
    requires gap2 != [] && forall i :: 0 <= i < |gap2| ==> IsBlank(gap2[i])
    requires Accounts.ParseAccount(t) == Ok(target, gap3 + w)
    requires gap3 != [] && forall i :: 0 <= i < |gap3| ==> IsBlank(gap3[i])
    requires Accounts.ParseAccount(w) == Ok(source, rest)
    ensures Parse(s).Ok? && Parse(s).value == Pad(d, target, source) && Parse(s).rest == rest
  {
    Stages(gap, gap2, t, gap3, w);
    ParseSteps(s, d, gap + ("pad" + (gap2 + t)), "pad" + (gap2 + t), gap2 + t, t, target, gap3 + w,
               w, source, rest);
  }

  lemma Stages(gap: string, gap2: string, t: string, gap3: string, w: string)
    requires gap != [] && forall i :: 0 <= i < |gap| ==> IsBlank(gap[i])
    requires gap2 != [] && forall i :: 0 <= i < |gap2| ==> IsBlank(gap2[i])
    requires Accounts.ParseAccount(t).Ok?
    requires gap3 != [] && forall i :: 0 <= i < |gap3| ==> IsBlank(gap3[i])
    requires Accounts.ParseAccount(w).Ok?
    ensures var v := "pad" + (gap2 + t);
            Space1(gap + v).Ok? && Space1(gap + v).rest == v &&
            Tag("pad", v).Ok? && Tag("pad", v).rest == gap2 + t &&
            Space1(gap2 + t).Ok? && Space1(gap2 + t).rest == t &&
            Space1(gap3 + w).Ok? && Space1(gap3 + w).rest == w
  {
    AccountFirst(t);
    AccountFirst(w);
    KeywordBetweenBlanks(gap, gap2, t);
    Space1OfBlanks(gap3, w);
  }

  lemma AccountFirst(t: string)
    requires Accounts.ParseAccount(t).Ok?
    ensures t != [] && !IsBlank(t[0])
  {
    Accounts.AccountStart(t);
  }

  lemma ParseSteps(s: string, d: ParserDates.Date, u1: string, u2: string, u3: string, t: string,
                   target: Accounts.Account, u4: string, w: string, source: Accounts.Account, rest: string)
    requires ParserDates.ParseDate(s) == Ok(d, u1)
    requires Space1(u1).Ok? && Space1(u1).rest == u2
    requires Tag("pad", u2).Ok? && Tag("pad", u2).rest == u3
    requires Space1(u3).Ok? && Space1(u3).rest == t
    requires Accounts.ParseAccount(t) == Ok(target, u4)
    requires Space1(u4).Ok? && Space1(u4).rest == w
    requires Accounts.ParseAccount(w) == Ok(source, rest)
    ensures Parse(s).Ok? && Parse(s).value == Pad(d, target, source) && Parse(s).rest == rest
  {
  }

  lemma KeywordBetweenBlanks(gap: string, gap2: string, t: string)
    requires gap != [] && forall i :: 0 <= i < |gap| ==> IsBlank(gap[i])
    requires gap2 != [] && forall i :: 0 <= i < |gap2| ==> IsBlank(gap2[i])
    requires t == [] || !IsBlank(t[0])
    ensures Space1(gap + ("pad" + (gap2 + t))) == Ok(gap, "pad" + (gap2 + t))
    ensures Tag("pad", "pad" + (gap2 + t)) == Ok("pad", gap2 + t)
    ensures Space1(gap2 + t) == Ok(gap2, t)
  {
    Space1OfBlanks(gap, "pad" + (gap2 + t));
    Space1OfBlanks(gap2, t);
    assert ("pad" + (gap2 + t))[..3] == "pad";
  }

  /** Both accounts are required: a target not followed by blanks and a
    * second account is rejected. */
  lemma NeedsSource(s: string, d: ParserDates.Date, gap: string, gap2: string, t: string,
                    target: Accounts.Account, gap3: string, w: string)
    requires ParserDates.ParseDate(s) == Ok(d, gap + ("pad" + (gap2 + t)))
    requires gap != [] && forall i :: 0 <= i < |gap| ==> IsBlank(gap[i])
    requires gap2 != [] && forall i :: 0 <= i < |gap2| ==> IsBlank(gap2[i])
    requires Accounts.ParseAccount(t) == Ok(target, gap3 + w)
    requires forall i :: 0 <= i < |gap3| ==> IsBlank(gap3[i])
    requires w == [] || (!IsBlank(w[0]) && !IsAsciiUpper(w[0]))
    ensures Parse(s).Error?
  {
    AccountFirst(t);
    KeywordBetweenBlanks(gap, gap2, t);
    NoSource(gap3, w);
  }

  lemma NoSource(gap: string, w: string)
    requires forall i :: 0 <= i < |gap| ==> IsBlank(gap[i])
    requires w == [] || (!IsBlank(w[0]) && !IsAsciiUpper(w[0]))
    ensures Space1(gap + w).Error? || (Space1(gap + w).Ok? && Accounts.ParseAccount(Space1(gap + w).rest).Error?)
  {
    if gap != [] {
      Space1OfBlanks(gap, w);
      if Accounts.ParseAccount(w).Ok? {
        Accounts.AccountStart(w);
      }
    } else if w == [] {
      assert gap + w == [];
    }
  }

  /** Blanks are required on both sides of the keyword. */
  lemma KeywordNeedsBlanks(s: string, d: ParserDates.Date, gap: string, t: string)
    requires ParserDates.ParseDate(s) == Ok(d, gap + ("pad" + t))
    requires forall i :: 0 <= i < |gap| ==> IsBlank(gap[i])
    requires gap == [] || t == [] || !IsBlank(t[0])
    ensures Parse(s).Error?
  {
    KeywordWithoutBlanks(gap, t);
  }

  lemma KeywordWithoutBlanks(gap: string, t: string)
    requires forall i :: 0 <= i < |gap| ==> IsBlank(gap[i])
    requires gap == [] || t == [] || !IsBlank(t[0])
    ensures var g := Space1(gap + ("pad" + t));
            g.Error? || (Tag("pad", g.rest).Ok? && Space1(Tag("pad", g.rest).rest).Error?)
  {
    if gap != [] {
      Space1OfBlanks(gap, "pad" + t);
      assert ("pad" + t)[..3] == "pad" && ("pad" + t)[3..] == t;
    } else {
      assert (gap + ("pad" + t))[0] == 'p';
    }
  }
}
