/**
 * src/iterator.rs: `Iter`, the iterator over the entries of a ledger.  It
 * drives nom's `iterator` over `entry`, keeps the set of tags pushed by
 * `pushtag` and not yet popped by `poptag`, adds them to every transaction it
 * hands out, and hides tag operations and comment lines.  When `entry` stops,
 * the iterator ends quietly if all input was read and otherwise yields one
 * syntax error; after that it yields nothing.
 */
module Iterators {
  import opened Nom
  import External
  import LibEntries

  type Entry = LibEntries.Entry
  type RawEntry = LibEntries.RawEntry
  type Directive = LibEntries.Directive

  /** The parser the iterator drives: `entry` for a ledger. */
  type EntryParser = string -> Res<RawEntry>

  /** Every entry read takes up some input, so the iteration ends. */
  ghost predicate Consumes(parse: EntryParser) {
    forall s :: parse(s).Ok? ==> |parse(s).rest| < |s|
  }

  /** The parser `parse_iter` drives: `entry`. */
  function LedgerParser(scans: External.AccountScanners): EntryParser {
    s => LibEntries.ParseEntry(scans, s)
  }

  /** `entry` takes up input whenever it reads an entry. */
  lemma EntryConsumes(scans: External.AccountScanners)
    ensures Consumes(LedgerParser(scans))
  {
  }

  /** What a call of `next` yields besides nothing: an entry or a syntax error. */
  datatype Item = Yield(entry: Entry) | SyntaxError

  /** A directive as handed out: a transaction gains the pushed tags. */
  function Stamp(d: Directive, stack: set<string>): (r: Directive)
    ensures r.date == d.date && r.metadata == d.metadata
    ensures r.content.Transaction? <==> d.content.Transaction?
    ensures !d.content.Transaction? ==> r == d
  {
    match d.content
    case Transaction(t) => d.(content := LibEntries.Transaction(t.(tags := t.tags + stack)))
    case _ => d
  }

  /** The raw entries nom's `iterator` over `entry` yields from `s`, and how
    * it stops: `Ok` with the input `entry` could not read, or `Failure`. */
  function Raws(parse: EntryParser, s: string): (r: (seq<RawEntry>, Res<()>))
    requires Consumes(parse)
    ensures !r.1.Error?
    decreases |s|
  {
    var e := parse(s);
    if e.Ok? then
      var more := Raws(parse, e.rest);
      ([e.value] + more.0, more.1)
    else if e.Failure? then ([], Failure)
    else ([], Ok((), s))
  }

  /** What the iterator hands out for the raw entries, starting from the tag
    * set `stack`, and the tag set it ends with. */
  function Apply(stack: set<string>, raws: seq<RawEntry>): (r: (seq<Entry>, set<string>))
    ensures |r.0| <= |raws|
    decreases |raws|
  {
    if raws == [] then ([], stack) else
    match raws[0]
    case RawDirective(d) =>
      var more := Apply(stack, raws[1..]);
      ([LibEntries.DirectiveEntry(Stamp(d, stack))] + more.0, more.1)
    case RawOption(o) =>
      var more := Apply(stack, raws[1..]);
      ([LibEntries.OptionEntry(o)] + more.0, more.1)
    case RawInclude(p) =>
      var more := Apply(stack, raws[1..]);
      ([LibEntries.IncludeEntry(p)] + more.0, more.1)
    case PushTag(t) => Apply(stack + {t}, raws[1..])
    case PopTag(t) => Apply(stack - {t}, raws[1..])
    case Comment => Apply(stack, raws[1..])
  }

  /** Everything the iterator yields, in order, from a fresh start on `s`
    * with the tag set `stack`: the entries, then one syntax error if the
    * input was not all read. */
  function Outputs(parse: EntryParser, stack: set<string>, s: string): seq<Item>
    requires Consumes(parse)
  {
    var (raws, end) := Raws(parse, s);
    Emitted(stack, raws, end)
  }

  /** What the iterator yields for the raw entries `raws` read before `entry`
    * stopped with `end`. */
  function Emitted(stack: set<string>, raws: seq<RawEntry>, end: Res<()>): seq<Item> {
    Yields(Apply(stack, raws).0) + if end.Ok? && end.rest == [] then [] else [SyntaxError]
  }

  function Yields(es: seq<Entry>): (r: seq<Item>)
    ensures |r| == |es| && forall i :: 0 <= i < |es| ==> r[i] == Yield(es[i])
  {
    if es == [] then [] else [Yield(es[0])] + Yields(es[1..])
  }

  lemma YieldsAppend(es: seq<Entry>, e: Entry)
    ensures Yields(es + [e]) == Yields(es) + [Yield(e)]
  {
    var a, b := Yields(es + [e]), Yields(es) + [Yield(e)];
    forall i | 0 <= i < |a|
      ensures a[i] == b[i]
    {
      if i < |es| {
        assert (es + [e])[i] == es[i];
      }
    }
  }

  lemma EntryAt(es: seq<Entry>, tail: seq<Item>, k: nat)
    requires k < |es|
    ensures (Yields(es) + tail)[k] == Yield(es[k])
  {
  }

  /** The entries yielded and whether a syntax error ends them can be told
    * apart from the sequence of items alone. */
  lemma YieldsTails(a: seq<Entry>, ta: seq<Item>, b: seq<Entry>, tb: seq<Item>)
    requires ta == [] || ta == [SyntaxError]
    requires tb == [] || tb == [SyntaxError]
    requires Yields(a) + ta == Yields(b) + tb
    ensures a == b && ta == tb
  {
    var xs, ys := Yields(a) + ta, Yields(b) + tb;
    if |a| < |b| {
      EntryAt(b, tb, |a|);
      assert false;
    } else if |b| < |a| {
      EntryAt(a, ta, |b|);
      assert false;
    }
    forall i | 0 <= i < |a|
      ensures a[i] == b[i]
    {
      assert xs[i] == ys[i];
    }
  }

  /** Moving one yielded entry from what is pending to what was seen. */
  lemma Shift(outs: seq<Item>, seen: seq<Entry>, e: Entry, before: seq<Item>, after: seq<Item>)
    requires outs == Yields(seen) + before
    requires before == [Yield(e)] + after
    ensures outs == Yields(seen + [e]) + after
  {
    YieldsAppend(seen, e);
  }

  /** Once the iterator stops, what it yielded is every entry of the ledger,
    * and it failed exactly when the ledger was not all read. */
  lemma Finished(parse: EntryParser, input: string, seen: seq<Entry>, failed: bool)
    requires Consumes(parse)
    requires Outputs(parse, {}, input) ==
             Yields(seen) + if failed then [SyntaxError] else []
    ensures var (raws, end) := Raws(parse, input);
            seen == Apply({}, raws).0 && (failed <==> end.Failure? || end.rest != [])
  {
    var (raws, end) := Raws(parse, input);
    YieldsTails(seen, if failed then [SyntaxError] else [],
                Apply({}, raws).0, if end.Failure? || end.rest != [] then [SyntaxError] else []);
  }

  /** The outcome of one call of `next`. */
  datatype Step = Emit(entry: Entry, stack: set<string>, rest: string) | Stop(failed: bool)

  /** One call of `next` from the tag set `stack` and the input `s` left. */
  function NextStep(parse: EntryParser, stack: set<string>, s: string): (r: Step)
    requires Consumes(parse)
    ensures r.Emit? ==> |r.rest| < |s|
    decreases |s|
  {
    var e := parse(s);
    if !e.Ok? then Stop(e.Failure? || s != []) else
    match e.value
    case RawDirective(d) => Emit(LibEntries.DirectiveEntry(Stamp(d, stack)), stack, e.rest)
    case RawOption(o) => Emit(LibEntries.OptionEntry(o), stack, e.rest)
    case RawInclude(p) => Emit(LibEntries.IncludeEntry(p), stack, e.rest)
    case PushTag(t) => NextStep(parse, stack + {t}, e.rest)
    case PopTag(t) => NextStep(parse, stack - {t}, e.rest)
    case Comment => NextStep(parse, stack, e.rest)
  }

  class Iter {
    const parse: EntryParser
    /** The input nom's `iterator` has not read yet. */
    var rest: string
    /** Whether `inner` was taken, after which `next` yields nothing. */
    var done: bool
    var tagStack: set<string>

    /** `new`: the whole input, no tags. */
    constructor (parse: EntryParser, input: string)
      ensures this.parse == parse && rest == input && !done && tagStack == {}
    {
      this.parse := parse;
      rest := input;
      done := false;
      tagStack := {};
    }

    /** Everything the calls of `next` from now on yield, in order. */
    ghost function Pending(): seq<Item>
      requires Consumes(parse)
      reads this
    {
      if done then [] else Outputs(parse, tagStack, rest)
    }

    /** `next`. */
    method Next() returns (r: Option<Item>)
      requires Consumes(parse)
      modifies this
      ensures old(Pending()) == (if r.Some? then [r.value] else []) + Pending()
      ensures r.None? || r.value.SyntaxError? ==> done
      ensures !done ==> !old(done) && |rest| < |old(rest)|
      ensures old(done) ==> r.None? && done && rest == old(rest) && tagStack == old(tagStack)
      ensures !old(done) ==>
                var step := NextStep(parse, old(tagStack), old(rest));
                match step
                case Emit(e, stack, after) => r == Some(Yield(e)) && !done && tagStack == stack && rest == after
                case Stop(failed) => done && r == (if failed then Some(SyntaxError) else None)
    {
      if done {
        return None;
      }
      NextYieldsOutputs(parse, tagStack, rest);
      while true
        invariant !done
        invariant NextStep(parse, tagStack, rest) == NextStep(parse, old(tagStack), old(rest))
        decreases |rest|
      {
        var e := parse(rest);
        if !e.Ok? {
          done := true;
          if e.Failure? || rest != [] {
            return Some(SyntaxError);
          }
          return None;
        }
        match e.value
        case RawDirective(d) =>
          rest := e.rest;
          return Some(Yield(LibEntries.DirectiveEntry(Stamp(d, tagStack))));
        case RawOption(o) =>
          rest := e.rest;
          return Some(Yield(LibEntries.OptionEntry(o)));
        case RawInclude(p) =>
          rest := e.rest;
          return Some(Yield(LibEntries.IncludeEntry(p)));
        case PushTag(t) =>
          tagStack := tagStack + {t};
          rest := e.rest;
        case PopTag(t) =>
          tagStack := tagStack - {t};
          rest := e.rest;
        case Comment =>
          rest := e.rest;
      }
    }
  }

  // ------------------------------------------------------------- properties

  /** One call of `next` yields the first of everything the iterator yields,
    * and the calls after it yield the others, in order; once it stops, there
    * is nothing more, or exactly one syntax error. */
  lemma {:induction false} NextYieldsOutputs(parse: EntryParser, stack: set<string>, s: string)
    requires Consumes(parse)
    ensures var step := NextStep(parse, stack, s);
            (step.Emit? ==> Outputs(parse, stack, s) == [Yield(step.entry)] + Outputs(parse, step.stack, step.rest)) &&
            (step.Stop? ==> Outputs(parse, stack, s) == if step.failed then [SyntaxError] else [])
    decreases |s|
  {
    var e := parse(s);
    if e.Ok? {
      RawsCons(parse, s);
      var more := Raws(parse, e.rest);
      EmittedCons(stack, e.value, more.0, more.1);
      match e.value
      case RawDirective(d) =>
      case RawOption(o) =>
      case RawInclude(p) =>
      case PushTag(t) => NextYieldsOutputs(parse, stack + {t}, e.rest);
      case PopTag(t) => NextYieldsOutputs(parse, stack - {t}, e.rest);
      case Comment => NextYieldsOutputs(parse, stack, e.rest);
    }
  }

  lemma RawsCons(parse: EntryParser, s: string)
    requires Consumes(parse) && parse(s).Ok?
    ensures Raws(parse, s) == ([parse(s).value] + Raws(parse, parse(s).rest).0, Raws(parse, parse(s).rest).1)
  {
  }

  /** What one more raw entry in front adds to what is yielded. */
  lemma EmittedCons(stack: set<string>, x: RawEntry, raws: seq<RawEntry>, end: Res<()>)
    ensures x.RawDirective? ==>
              Emitted(stack, [x] + raws, end) ==
              [Yield(LibEntries.DirectiveEntry(Stamp(x.directive, stack)))] + Emitted(stack, raws, end)
    ensures x.RawOption? ==>
              Emitted(stack, [x] + raws, end) == [Yield(LibEntries.OptionEntry(x.option))] + Emitted(stack, raws, end)
    ensures x.RawInclude? ==>
              Emitted(stack, [x] + raws, end) == [Yield(LibEntries.IncludeEntry(x.path))] + Emitted(stack, raws, end)
    ensures x.PushTag? ==> Emitted(stack, [x] + raws, end) == Emitted(stack + {x.pushed}, raws, end)
    ensures x.PopTag? ==> Emitted(stack, [x] + raws, end) == Emitted(stack - {x.popped}, raws, end)
    ensures x.Comment? ==> Emitted(stack, [x] + raws, end) == Emitted(stack, raws, end)
  {
    assert ([x] + raws)[1..] == raws;
    var more := Apply(stack, raws).0;
    if x.RawDirective? || x.RawOption? || x.RawInclude? {
      var first := Apply(stack, [x] + raws).0[0];
      YieldsCons(first, more);
    }
  }

  lemma YieldsCons(e: Entry, es: seq<Entry>)
    ensures Yields([e] + es) == [Yield(e)] + Yields(es)
  {
    assert ([e] + es)[1..] == es;
  }

  /** Lines that are all comments yield no entry, and leave the tags as they
    * were. */
  lemma {:induction false} CommentsOnly(stack: set<string>, raws: seq<RawEntry>)
    requires forall i :: 0 <= i < |raws| ==> raws[i].Comment?
    ensures Apply(stack, raws) == ([], stack)
  {
    if raws != [] {
      CommentsOnly(stack, raws[1..]);
    }
  }

  /** Every tag pushed and not popped since is added to the next transaction,
    * on top of its own tags. */
  lemma PushedTagStamped(stack: set<string>, t: string, d: Directive, raws: seq<RawEntry>)
    requires d.content.Transaction?
    ensures var out := Apply(stack, [LibEntries.PushTag(t), LibEntries.RawDirective(d)] + raws).0;
            out != [] && out[0].DirectiveEntry? && out[0].directive.content.Transaction? &&
            out[0].directive.content.transaction.tags == d.content.transaction.tags + stack + {t}
  {
    var rs := [LibEntries.PushTag(t), LibEntries.RawDirective(d)] + raws;
    assert rs[1..] == [LibEntries.RawDirective(d)] + raws;
    assert ([LibEntries.RawDirective(d)] + raws)[1..] == raws;
  }

  /** A tag is a set member: pushing it twice and popping it once removes it. */
  lemma PushTwicePopOnce(stack: set<string>, t: string, raws: seq<RawEntry>)
    ensures Apply(stack, [LibEntries.PushTag(t), LibEntries.PushTag(t), LibEntries.PopTag(t)] + raws) ==
            Apply(stack - {t}, raws)
  {
    var rs := [LibEntries.PushTag(t), LibEntries.PushTag(t), LibEntries.PopTag(t)] + raws;
    assert rs[1..] == [LibEntries.PushTag(t), LibEntries.PopTag(t)] + raws;
    assert rs[1..][1..] == [LibEntries.PopTag(t)] + raws;
    assert rs[1..][1..][1..] == raws;
    assert Apply(stack, rs) == Apply(stack + {t}, rs[1..]);
    assert Apply(stack + {t}, rs[1..]) == Apply(stack + {t} + {t}, rs[1..][1..]);
    assert Apply(stack + {t} + {t}, rs[1..][1..]) == Apply(stack + {t} + {t} - {t}, raws);
    assert stack + {t} + {t} - {t} == stack - {t};
  }

  /** Popping a tag that was not pushed changes nothing. */
  lemma PopAbsent(stack: set<string>, t: string, raws: seq<RawEntry>)
    requires t !in stack
    ensures Apply(stack, [LibEntries.PopTag(t)] + raws) == Apply(stack, raws)
  {
    assert ([LibEntries.PopTag(t)] + raws)[1..] == raws;
    assert stack - {t} == stack;
  }

  /** Options and includes pass through unchanged, and so does every
    * directive that is not a transaction. */
  lemma {:induction false} PassThrough(stack: set<string>, raws: seq<RawEntry>, i: nat)
    requires i < |raws| && !raws[i].PushTag? && !raws[i].PopTag? && !raws[i].Comment?
    requires raws[i].RawDirective? ==> !raws[i].directive.content.Transaction?
    requires forall j :: 0 <= j < i ==> !raws[j].PushTag? && !raws[j].PopTag? && !raws[j].Comment?
    ensures i < |Apply(stack, raws).0|
    ensures var out := Apply(stack, raws).0[i];
            match raws[i]
            case RawDirective(d) => out == LibEntries.DirectiveEntry(d)
            case RawOption(o) => out == LibEntries.OptionEntry(o)
            case RawInclude(p) => out == LibEntries.IncludeEntry(p)
            case _ => false
  {
    if i > 0 {
      PassThrough(stack, raws[1..], i - 1);
    }
  }
}
