/**
 * src/amount/sum.rs: a per-currency accumulator of amounts.  Adding an amount
 * raises the total of its currency by the amount's value, creating the entry
 * when the currency is new; sums and additions of amounts are built on that.
 */
module AmountSum {
  import ExprAmount
  import AmountExpression

  type Amount = ExprAmount.Amount

  /** The totals after adding `a` to `m` (`entry().and_modify().or_insert()`). */
  function Added(m: map<string, real>, a: Amount): (r: map<string, real>)
    ensures r.Keys == m.Keys + {a.currency}
    ensures a.currency in m ==> r[a.currency] == m[a.currency] + ExprAmount.Value(a)
    ensures a.currency !in m ==> r[a.currency] == ExprAmount.Value(a)
    ensures forall c :: c in m && c != a.currency ==> r[c] == m[c]
  {
    var v := ExprAmount.Value(a);
    if a.currency in m then m[a.currency := m[a.currency] + v] else m[a.currency := v]
  }

  /** Folding `Added` over `amounts` from the empty map, as `Sum` does. */
  function Fold(amounts: seq<Amount>): map<string, real>
  {
    if amounts == [] then map[] else Added(Fold(amounts[..|amounts| - 1]), amounts[|amounts| - 1])
  }

  // --------------------------------------------- independent reference totals

  /** The currencies that occur in `amounts`. */
  function CurrenciesOf(amounts: seq<Amount>): set<string> {
    set i | 0 <= i < |amounts| :: amounts[i].currency
  }

  /** The sum of the values of the amounts in currency `c`, first to last. */
  function Total(amounts: seq<Amount>, c: string): real {
    if amounts == [] then 0.0
    else (if amounts[0].currency == c then ExprAmount.Value(amounts[0]) else 0.0) + Total(amounts[1..], c)
  }

  lemma {:induction false} TotalSnoc(amounts: seq<Amount>, a: Amount, c: string)
    ensures Total(amounts + [a], c) == Total(amounts, c) + (if a.currency == c then ExprAmount.Value(a) else 0.0)
    decreases |amounts|
  {
    if amounts != [] {
      assert (amounts + [a])[1..] == amounts[1..] + [a];
      TotalSnoc(amounts[1..], a, c);
    } else {
      assert (amounts + [a])[1..] == [];
    }
  }

  /** The accumulated map has one entry per currency that occurs, holding the
    * sum of that currency's values, and no other entry. */
  lemma {:induction false} FoldIsTotals(amounts: seq<Amount>)
    ensures Fold(amounts).Keys == CurrenciesOf(amounts)
    ensures forall c :: c in Fold(amounts) ==> Fold(amounts)[c] == Total(amounts, c)
    decreases |amounts|
  {
    if amounts != [] {
      var init, a := amounts[..|amounts| - 1], amounts[|amounts| - 1];
      assert amounts == init + [a];
      FoldIsTotals(init);
      forall c | c in Fold(amounts) ensures Fold(amounts)[c] == Total(amounts, c) {
        TotalSnoc(init, a, c);
        if c != a.currency {
          assert c in Fold(init);
        } else if c !in Fold(init) {
          TotalAbsent(init, c);
        }
      }
      assert CurrenciesOf(amounts) == CurrenciesOf(init) + {a.currency} by {
        forall c | c in CurrenciesOf(amounts) ensures c in CurrenciesOf(init) + {a.currency} {
          var i :| 0 <= i < |amounts| && amounts[i].currency == c;
          if i < |init| { assert init[i] == amounts[i]; }
        }
        forall c | c in CurrenciesOf(init) ensures c in CurrenciesOf(amounts) {
          var i :| 0 <= i < |init| && init[i].currency == c;
          assert amounts[i] == init[i];
        }
      }
    }
  }

  /** A currency that does not occur totals zero. */
  lemma {:induction false} TotalAbsent(amounts: seq<Amount>, c: string)
    requires c !in CurrenciesOf(amounts)
    ensures Total(amounts, c) == 0.0
    decreases |amounts|
  {
    if amounts != [] {
      assert amounts[0].currency != c;
      assert c !in CurrenciesOf(amounts[1..]) by {
        forall i | 0 <= i < |amounts[1..]| ensures amounts[1..][i].currency != c {
          assert amounts[1..][i] == amounts[i + 1];
        }
      }
      TotalAbsent(amounts[1..], c);
    }
  }

  /** Two amounts in one currency give one entry holding their sum. */
  lemma AddSameCurrency(x: Amount, y: Amount)
    requires x.currency == y.currency
    ensures Added(Added(map[], x), y) == map[x.currency := ExprAmount.Value(x) + ExprAmount.Value(y)]
  {
  }

  /** Two amounts in different currencies give two entries, one each. */
  lemma AddDifferentCurrencies(x: Amount, y: Amount)
    requires x.currency != y.currency
    ensures Added(Added(map[], x), y) == map[x.currency := ExprAmount.Value(x), y.currency := ExprAmount.Value(y)]
  {
  }

  /** `Amounts::iter`: one amount per entry, its value a plain number. */
  function Entries(m: map<string, real>): (r: set<Amount>)
    ensures forall c :: c in m ==> ExprAmount.Amount(AmountExpression.Value(m[c]), c) in r
    ensures forall a :: a in r ==> a.currency in m && a == ExprAmount.Amount(AmountExpression.Value(m[a.currency]), a.currency)
    ensures forall a, b :: a in r && b in r && a.currency == b.currency ==> a == b
  {
    set c | c in m :: ExprAmount.Amount(AmountExpression.Value(m[c]), c)
  }

  /** `Amounts`: the totals, at most one per currency. */
  class Amounts {
    var totals: map<string, real>

    /** `Amounts::default`: no entry. */
    constructor ()
      ensures totals == map[]
    {
      totals := map[];
    }

    /** `add_assign`: raises the total of `a`'s currency, or creates it. */
    method AddAssign(a: Amount)
      modifies this
      ensures totals == Added(old(totals), a)
    {
      var v := ExprAmount.Value(a);
      if a.currency in totals {
        totals := totals[a.currency := totals[a.currency] + v];
      } else {
        totals := totals[a.currency := v];
      }
    }

    /** `Amounts + Amount`: adds in place and hands the same accumulator back. */
    method Add(a: Amount) returns (r: Amounts)
      modifies this
      ensures r == this && totals == Added(old(totals), a)
    {
      AddAssign(a);
      r := this;
    }
  }

  /** `From<Amount>`: the empty accumulator plus one amount. */
  method FromAmount(a: Amount) returns (r: Amounts)
    ensures fresh(r) && r.totals == map[a.currency := ExprAmount.Value(a)]
  {
    r := new Amounts();
    r := r.Add(a);
  }

  /** `Amount + Amount`. */
  method AddAmounts(x: Amount, y: Amount) returns (r: Amounts)
    ensures fresh(r) && r.totals == Added(Added(map[], x), y)
  {
    r := FromAmount(x);
    r := r.Add(y);
  }

  /** `Sum`: folds the amounts into an empty accumulator, first to last. */
  method Sum(amounts: seq<Amount>) returns (r: Amounts)
    ensures fresh(r)
    ensures r.totals.Keys == CurrenciesOf(amounts)
    ensures forall c :: c in r.totals ==> r.totals[c] == Total(amounts, c)
  {
    r := new Amounts();
    for i := 0 to |amounts|
      invariant fresh(r)
      invariant r.totals == Fold(amounts[..i])
    {
      assert amounts[..i + 1][..i] == amounts[..i];
      r := r.Add(amounts[i]);
    }
    assert amounts[..|amounts|] == amounts;
    FoldIsTotals(amounts);
  }
}
