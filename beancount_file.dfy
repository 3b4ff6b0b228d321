/**
 * src/lib.rs: `BeancountFile`, the entries of a ledger sorted into its
 * directives, its options and its includes, and the lookup of an option.
 */
module BeancountFiles {
  import opened Nom
  import LibEntries
  import External
  import Iterators

  type Entry = LibEntries.Entry
  type Directive = LibEntries.Directive
  type BeanOption = LibEntries.BeanOption

  /** The directives among `es`, in order. */
  function DirectivesOf(es: seq<Entry>): seq<Directive> {
    if es == [] then [] else
    var last := es[|es| - 1];
    DirectivesOf(es[..|es| - 1]) + if last.DirectiveEntry? then [last.directive] else []
  }

  /** The options among `es`, in order. */
  function OptionsOf(es: seq<Entry>): seq<BeanOption> {
    if es == [] then [] else
    var last := es[|es| - 1];
    OptionsOf(es[..|es| - 1]) + if last.OptionEntry? then [last.option] else []
  }

  /** The included paths among `es`, in order. */
  function IncludesOf(es: seq<Entry>): seq<string> {
    if es == [] then [] else
    var last := es[|es| - 1];
    IncludesOf(es[..|es| - 1]) + if last.IncludeEntry? then [last.path] else []
  }

  /** The value of the first option named `key`, if any. */
  function FindOption(options: seq<BeanOption>, key: string): (r: Option<string>)
    ensures r.None? <==> forall i :: 0 <= i < |options| ==> options[i].name != key
  {
    if options == [] then None
    else if options[0].name == key then Some(options[0].value)
    else FindOption(options[1..], key)
  }

  class BeancountFile {
    var options: seq<BeanOption>
    var includes: seq<string>
    var directives: seq<Directive>

    /** `Default`: nothing in it. */
    constructor ()
      ensures options == [] && includes == [] && directives == []
    {
      options := [];
      includes := [];
      directives := [];
    }

    /** `option`: the value of the first option declared with that name. */
    function Option(key: string): (r: Option<string>)
      reads this
      ensures r.None? <==> forall i :: 0 <= i < |options| ==> options[i].name != key
    {
      FindOption(options, key)
    }

    /** `extend`: each entry goes, in order, to the end of the directives, the
      * options or the includes, by its kind. */
    method Extend(entries: seq<Entry>)
      modifies this
      ensures directives == old(directives) + DirectivesOf(entries)
      ensures options == old(options) + OptionsOf(entries)
      ensures includes == old(includes) + IncludesOf(entries)
    {
      for i := 0 to |entries|
        invariant directives == old(directives) + DirectivesOf(entries[..i])
        invariant options == old(options) + OptionsOf(entries[..i])
        invariant includes == old(includes) + IncludesOf(entries[..i])
      {
        assert entries[..i + 1][..i] == entries[..i];
        match entries[i]
        case DirectiveEntry(d) => directives := directives + [d];
        case OptionEntry(o) => options := options + [o];
        case IncludeEntry(p) => includes := includes + [p];
      }
      assert entries[..|entries|] == entries;
    }
  }

  /** `from_iter`: a new file extended with the entries. */
  method FromEntries(entries: seq<Entry>) returns (file: BeancountFile)
    ensures fresh(file)
    ensures file.directives == DirectivesOf(entries)
    ensures file.options == OptionsOf(entries)
    ensures file.includes == IncludesOf(entries)
  {
    file := new BeancountFile();
    file.Extend(entries);
  }

  /** `from_str`: `parse_iter(input).collect()`, a file holding every entry
    * of the ledger, sorted, or a syntax error. */
  method ParseLedger(scans: External.AccountScanners, input: string) returns (file: BeancountFile, failed: bool)
    ensures var (raws, end) := Iterators.Raws(Iterators.LedgerParser(scans), input);
            failed <==> end.Failure? || end.rest != []
    ensures var entries := Iterators.Apply({}, Iterators.Raws(Iterators.LedgerParser(scans), input).0).0;
            !failed ==> file.directives == DirectivesOf(entries) && file.options == OptionsOf(entries) &&
                        file.includes == IncludesOf(entries)
  {
    Iterators.EntryConsumes(scans);
    file, failed := Collect(Iterators.LedgerParser(scans), input);
  }

  /** Collecting an `Iter` over `parse` into a file: every entry it yields
    * goes in, and the first syntax error makes the whole a failure. */
  method Collect(parse: Iterators.EntryParser, input: string) returns (file: BeancountFile, failed: bool)
    requires Iterators.Consumes(parse)
    ensures var (raws, end) := Iterators.Raws(parse, input);
            failed <==> end.Failure? || end.rest != []
    ensures var entries := Iterators.Apply({}, Iterators.Raws(parse, input).0).0;
            !failed ==> file.directives == DirectivesOf(entries) && file.options == OptionsOf(entries) &&
                        file.includes == IncludesOf(entries)
  {
    var it := new Iterators.Iter(parse, input);
    file := new BeancountFile();
    failed := false;
    ghost var seen: seq<Entry> := [];
    ghost var outs := it.Pending();
    ghost var pending := outs;
    while true
      invariant it.parse == parse && fresh(it) && fresh(file)
      invariant pending == it.Pending()
      invariant outs == Iterators.Yields(seen) + pending
      invariant file.directives == DirectivesOf(seen) && file.options == OptionsOf(seen)
      invariant file.includes == IncludesOf(seen)
      decreases if it.done then 0 else 1, |it.rest|
    {
      var item := it.Next();
      ghost var after := it.Pending();
      if item.None? || item.value.SyntaxError? {
        failed := item.Some?;
        assert after == [];
        Iterators.Finished(parse, input, seen, failed);
        return;
      }
      var e := item.value.entry;
      file.Extend([e]);
      SortAppend(seen, [e]);
      Iterators.Shift(outs, seen, e, pending, after);
      seen, pending := seen + [e], after;
    }
  }

  // ------------------------------------------------------------- properties

  /** The option found is the first one with that name. */
  lemma {:induction false} FirstOptionWins(options: seq<BeanOption>, key: string, i: nat)
    requires i < |options| && options[i].name == key
    requires forall j :: 0 <= j < i ==> options[j].name != key
    ensures FindOption(options, key) == Some(options[i].value)
  {
    if i > 0 {
      assert options[0].name != key;
      FirstOptionWins(options[1..], key, i - 1);
    }
  }

  /** Sorting drops no entry and duplicates none: every entry lands in
    * exactly one of the three lists. */
  lemma {:induction false} NothingDropped(es: seq<Entry>)
    ensures |DirectivesOf(es)| + |OptionsOf(es)| + |IncludesOf(es)| == |es|
  {
    if es != [] {
      NothingDropped(es[..|es| - 1]);
    }
  }

  /** Sorting a concatenation sorts each part: relative order is kept. */
  lemma {:induction false} SortAppend(es: seq<Entry>, more: seq<Entry>)
    ensures DirectivesOf(es + more) == DirectivesOf(es) + DirectivesOf(more)
    ensures OptionsOf(es + more) == OptionsOf(es) + OptionsOf(more)
    ensures IncludesOf(es + more) == IncludesOf(es) + IncludesOf(more)
  {
    if more == [] {
      assert es + more == es;
    } else {
      var init := more[..|more| - 1];
      assert (es + more)[..|es + more| - 1] == es + init;
      SortAppend(es, init);
    }
  }

  /** An entry is a directive, an option or an include, exactly one of them. */
  lemma {:induction false} SingleEntry(e: Entry)
    ensures DirectivesOf([e]) == (if e.DirectiveEntry? then [e.directive] else [])
    ensures OptionsOf([e]) == (if e.OptionEntry? then [e.option] else [])
    ensures IncludesOf([e]) == (if e.IncludeEntry? then [e.path] else [])
  {
    assert [e][..0] == [];
  }
}
