/**
 * src/transaction/balanced.rs: a transaction whose every posting carries an
 * amount can be turned into a "balanced" one, where the amounts are no longer
 * optional.  Nothing is inferred: one missing amount makes the conversion fail.
 */
module Balanced {
  import opened Nom

  /** A posting: the information it carries besides the amount, and the amount. */
  datatype Posting<PostingInfo, A> = Posting(info: PostingInfo, amount: A)

  /** A transaction: its own information and its postings in order. */
  datatype Transaction<Info, PostingInfo, A> = Transaction(info: Info, postings: seq<Posting<PostingInfo, A>>)

  /** Some posting has no amount. */
  predicate MissesAmount<Info, PostingInfo, A>(t: Transaction<Info, PostingInfo, Option<A>>) {
    exists i :: 0 <= i < |t.postings| && t.postings[i].amount.None?
  }

  /** `Transaction::balanced`: the postings are copied in order, each amount
    * unwrapped; the first posting without an amount ends the loop with None. */
  method Balance<Info, PostingInfo, A>(t: Transaction<Info, PostingInfo, Option<A>>)
    returns (r: Option<Transaction<Info, PostingInfo, A>>)
    ensures r.None? <==> MissesAmount(t)
    ensures r.Some? ==> r.value.info == t.info && |r.value.postings| == |t.postings|
    ensures r.Some? ==> forall i :: 0 <= i < |t.postings| ==>
              r.value.postings[i] == Posting(t.postings[i].info, t.postings[i].amount.value)
  {
    var postings: seq<Posting<PostingInfo, A>> := [];
    for i := 0 to |t.postings|
      invariant |postings| == i
      invariant forall j :: 0 <= j < i ==> t.postings[j].amount.Some?
      invariant forall j :: 0 <= j < i ==> postings[j] == Posting(t.postings[j].info, t.postings[j].amount.value)
    {
      var posting := t.postings[i];
      if posting.amount.None? {
        return None;
      }
      postings := postings + [Posting(posting.info, posting.amount.value)];
    }
    r := Some(Transaction(t.info, postings));
  }

  /** A transaction without postings balances to one without postings. */
  method BalanceEmpty<Info, PostingInfo, A>(info: Info) returns (r: Option<Transaction<Info, PostingInfo, A>>)
    ensures r == Some(Transaction(info, []))
  {
    var t: Transaction<Info, PostingInfo, Option<A>> := Transaction(info, []);
    r := Balance(t);
  }
}
