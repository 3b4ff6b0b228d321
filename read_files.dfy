/**
 * src/lib.rs: `read_files_v2`, reading a ledger spread over several files.
 * The given paths are canonicalized, then a stack of pending paths is worked
 * off from its top: a path already loaded is skipped, any other is marked
 * loaded, read and parsed, and each of its entries is handed to `on_entry`,
 * except the includes, whose targets (relative ones taken from the including
 * file's directory) are canonicalized and pushed unless already loaded.  The
 * first I/O or syntax error ends the whole with that path.
 *
 * The file system is a map from canonical paths to contents plus the path
 * operations, and `on_entry` is the sequence of entries it receives.
 */
module ReadFiles {
  import opened Nom
  import LibEntries
  import Iterators
  import External

  type Entry = LibEntries.Entry

  /** The path operations of the file system. */
  datatype PathOps = PathOps(
    isRelative: string -> bool,
    parent: string -> string,
    join: (string, string) -> string,
    canonicalize: string -> Option<string>)

  datatype ErrorContent = Io | Syntax

  /** `ReadFileErrorV2`: what went wrong, and with which path. */
  datatype ReadFileError = ReadFileError(path: string, error: ErrorContent)

  /** The entries of a file as the iterator yields them before it stops. */
  function FileEntries(parse: Iterators.EntryParser, text: string): seq<Entry>
    requires Iterators.Consumes(parse)
  {
    Iterators.Apply({}, Iterators.Raws(parse, text).0).0
  }

  /** The iterator over the file yields no syntax error. */
  predicate Parses(parse: Iterators.EntryParser, text: string)
    requires Iterators.Consumes(parse)
  {
    var end := Iterators.Raws(parse, text).1;
    end.Ok? && end.rest == []
  }

  /** The entries `on_entry` receives from `es`: all but the includes. */
  function Delivered(es: seq<Entry>): (r: seq<Entry>)
    ensures forall i :: 0 <= i < |r| ==> !r[i].IncludeEntry?
    ensures |r| <= |es|
  {
    if es == [] then [] else
    var last := es[|es| - 1];
    Delivered(es[..|es| - 1]) + if last.IncludeEntry? then [] else [last]
  }

  /** The paths named by the includes among `es`, in order. */
  function IncludePaths(es: seq<Entry>): seq<string> {
    if es == [] then [] else
    var last := es[|es| - 1];
    IncludePaths(es[..|es| - 1]) + if last.IncludeEntry? then [last.path] else []
  }

  /** The path an include in the file at `base` names: relative to the
    * directory of `base` when relative. */
  function Joined(ops: PathOps, base: string, name: string): string {
    if ops.isRelative(name) then ops.join(ops.parent(base), name) else name
  }

  /** The canonical path an include in the file at `base` names, if any. */
  function Target(ops: PathOps, base: string, name: string): Option<string> {
    ops.canonicalize(Joined(ops, base, name))
  }

  /** How far the entries of one file got: the paths pushed, the entries
    * handed on, and the include path that could not be canonicalized. */
  datatype Walked = Walked(pushed: seq<string>, delivered: seq<Entry>, failed: Option<string>)

  /** The inner loop over the entries `es` of the file at `base`, with
    * `loaded` the paths loaded so far. */
  function Walk(ops: PathOps, loaded: set<string>, base: string, es: seq<Entry>): (r: Walked)
    ensures forall i :: 0 <= i < |r.delivered| ==> !r.delivered[i].IncludeEntry?
    ensures forall i :: 0 <= i < |r.pushed| ==> r.pushed[i] !in loaded
    ensures r.failed.None? ==> r.delivered == Delivered(es)
    ensures r.failed.None? ==>
              forall p <- IncludePaths(es) :: Target(ops, base, p).Some? &&
                                              (Target(ops, base, p).value in loaded || Target(ops, base, p).value in r.pushed)
    ensures r.failed.Some? ==> ops.canonicalize(r.failed.value).None?
    ensures r.failed.Some? ==> exists p <- IncludePaths(es) :: r.failed.value == Joined(ops, base, p) && Target(ops, base, p).None?
    ensures forall t <- r.pushed :: exists p <- IncludePaths(es) :: Target(ops, base, p) == Some(t)
  {
    if es == [] then Walked([], [], None) else
    var w := Walk(ops, loaded, base, es[..|es| - 1]);
    if w.failed.Some? then w else
    var last := es[|es| - 1];
    if !last.IncludeEntry? then Walked(w.pushed, w.delivered + [last], None) else
    var target := Target(ops, base, last.path);
    if target.None? then Walked(w.pushed, w.delivered, Some(Joined(ops, base, last.path)))
    else if target.value in loaded then w
    else Walked(w.pushed + [target.value], w.delivered, None)
  }

  /** The given paths, canonicalized, or the first that cannot be. */
  datatype Canon = Canonical(paths: seq<string>) | Missing(path: string)

  /** The canonical forms of `roots`, or the first one that has none. */
  function Canonicals(ops: PathOps, roots: seq<string>): (r: Canon)
    ensures r.Canonical? ==> |r.paths| == |roots| &&
                             forall i :: 0 <= i < |roots| ==> ops.canonicalize(roots[i]) == Some(r.paths[i])
    ensures r.Missing? ==> exists i :: 0 <= i < |roots| && roots[i] == r.path && ops.canonicalize(roots[i]).None? &&
                                       forall j :: 0 <= j < i ==> ops.canonicalize(roots[j]).Some?
  {
    if roots == [] then Canonical([]) else
    var first := ops.canonicalize(roots[0]);
    if first.None? then Missing(roots[0]) else
    var more := Canonicals(ops, roots[1..]);
    if more.Missing? then more else Canonical([first.value] + more.paths)
  }

  /** Everything handed to `on_entry` from the files read, in the order read. */
  ghost function DeliveredAll(parse: Iterators.EntryParser, files: map<string, string>, history: seq<string>): (r: seq<Entry>)
    requires Iterators.Consumes(parse)
    requires forall r <- history :: r in files
    ensures forall i :: 0 <= i < |r| ==> !r[i].IncludeEntry?
  {
    if history == [] then [] else
    DeliveredAll(parse, files, history[..|history| - 1]) + Delivered(FileEntries(parse, files[history[|history| - 1]]))
  }

  /** The file read at `r` has an include naming `t`. */
  ghost predicate Includes(parse: Iterators.EntryParser, ops: PathOps, files: map<string, string>, r: string, t: string)
    requires Iterators.Consumes(parse)
  {
    r in files && exists p <- IncludePaths(FileEntries(parse, files[r])) :: Target(ops, r, p) == Some(t)
  }

  /** Every file read is a root or is named by an include of a file read
    * before it. */
  ghost predicate Reached(parse: Iterators.EntryParser, ops: PathOps, files: map<string, string>, canon: seq<string>,
                          history: seq<string>)
    requires Iterators.Consumes(parse)
  {
    forall j :: 0 <= j < |history| ==>
      history[j] in canon || exists i :: 0 <= i < j && Includes(parse, ops, files, history[i], history[j])
  }

  /** The files read and the files pending all come from a root through
    * the includes of files read before them. */
  ghost predicate Traced(parse: Iterators.EntryParser, ops: PathOps, files: map<string, string>, canon: seq<string>,
                         pending: seq<string>, history: seq<string>)
    requires Iterators.Consumes(parse)
  {
    Reached(parse, ops, files, canon, history) &&
    forall t <- pending :: t in canon || exists i :: 0 <= i < |history| && Includes(parse, ops, files, history[i], t)
  }

  /** Every include of every file read names a file read too. */
  ghost predicate Closed(parse: Iterators.EntryParser, ops: PathOps, files: map<string, string>, history: seq<string>)
    requires Iterators.Consumes(parse)
    requires forall r <- history :: r in files
  {
    forall r <- history ::
      forall p <- IncludePaths(FileEntries(parse, files[r])) ::
        Target(ops, r, p).Some? && Target(ops, r, p).value in history
  }

  /** One pass of the inner `for` loop: the entries of the file at `path`
    * with contents `text`, handed on or followed, until the first error. */
  method ReadOne(parse: Iterators.EntryParser, ops: PathOps, loaded: set<string>, path: string, text: string)
    returns (pushed: seq<string>, delivered: seq<Entry>, err: Option<ReadFileError>)
    requires Iterators.Consumes(parse)
    ensures var w := Walk(ops, loaded, path, FileEntries(parse, text));
            pushed == w.pushed && delivered == w.delivered &&
            err == if w.failed.Some? then Some(ReadFileError(w.failed.value, Io))
                   else if !Parses(parse, text) then Some(ReadFileError(path, Syntax))
                   else None
  {
    var it := new Iterators.Iter(parse, text);
    pushed, delivered := [], [];
    ghost var seen: seq<Entry> := [];
    ghost var outs := it.Pending();
    ghost var pending := outs;
    while true
      invariant it.parse == parse && fresh(it)
      invariant pending == it.Pending()
      invariant outs == Iterators.Yields(seen) + pending
      invariant Walk(ops, loaded, path, seen) == Walked(pushed, delivered, None)
      decreases if it.done then 0 else 1, |it.rest|
    {
      var item := it.Next();
      ghost var after := it.Pending();
      if item.None? || item.value.SyntaxError? {
        assert after == [];
        Iterators.Finished(parse, text, seen, item.Some?);
        err := if item.Some? then Some(ReadFileError(path, Syntax)) else None;
        return;
      }
      var e := item.value.entry;
      Iterators.Shift(outs, seen, e, pending, after);
      WalkSnoc(ops, loaded, path, seen, e);
      seen, pending := seen + [e], after;
      if e.IncludeEntry? {
        var joined := Joined(ops, path, e.path);
        var target := ops.canonicalize(joined);
        if target.None? {
          WalkFailed(ops, loaded, path, seen, parse, text, outs);
          err := Some(ReadFileError(joined, Io));
          return;
        }
        if target.value !in loaded {
          pushed := pushed + [target.value];
        }
      } else {
        delivered := delivered + [e];
      }
    }
  }

  /** The rest of the `while let` loop as a function of its state: the
    * error that ends the reading, if any, what `on_entry` has received and
    * the files read, in order.  The path on top of the stack is popped; a
    * loaded path is skipped; any other is loaded, read and walked, and the
    * include targets the walk pushes are worked off next. */
  function Run(parse: Iterators.EntryParser, ops: PathOps, files: map<string, string>, loaded: set<string>,
               pending: seq<string>, delivered: seq<Entry>, history: seq<string>)
    : (Option<ReadFileError>, seq<Entry>, seq<string>)
    requires Iterators.Consumes(parse)
    decreases Unloaded(files, loaded), |pending|
  {
    if pending == [] then (None, delivered, history) else
    var path := pending[|pending| - 1];
    var below := pending[..|pending| - 1];
    if path in loaded then Run(parse, ops, files, loaded, below, delivered, history)
    else if path !in files then (Some(ReadFileError(path, Io)), delivered, history)
    else
      var w := Walk(ops, loaded + {path}, path, FileEntries(parse, files[path]));
      var delivered', history' := delivered + w.delivered, history + [path];
      if w.failed.Some? then (Some(ReadFileError(w.failed.value, Io)), delivered', history')
      else if !Parses(parse, files[path]) then (Some(ReadFileError(path, Syntax)), delivered', history')
      else
        FewerUnloaded(files, loaded, path);
        Run(parse, ops, files, loaded + {path}, below + w.pushed, delivered', history')
  }

  /** The whole of `read_files_v2`: the roots canonicalized, then the loop
    * from an empty set of loaded paths with the roots on the stack. */
  function ReadAll(parse: Iterators.EntryParser, ops: PathOps, files: map<string, string>, roots: seq<string>)
    : (Option<ReadFileError>, seq<Entry>, seq<string>)
    requires Iterators.Consumes(parse)
  {
    match Canonicals(ops, roots)
    case Missing(path) => (Some(ReadFileError(path, Io)), [], [])
    case Canonical(canon) => Run(parse, ops, files, {}, canon, [], [])
  }

  /** `read_files_v2` with `entry` as `parse`: the entries handed to
    * `on_entry`, and the error that ended the reading, if any.  `history`
    * lists the files read, in order. */
  method ReadFilesWith(parse: Iterators.EntryParser, ops: PathOps, files: map<string, string>, roots: seq<string>)
    returns (result: Option<ReadFileError>, delivered: seq<Entry>, ghost history: seq<string>)
    requires Iterators.Consumes(parse)
    ensures result == ReadAll(parse, ops, files, roots).0 && delivered == ReadAll(parse, ops, files, roots).1
    ensures history == ReadAll(parse, ops, files, roots).2
    ensures Outcome(parse, ops, files, roots, result, delivered, history)
  {
    ReadAllOutcome(parse, ops, files, roots);
    var canon := Canonicals(ops, roots);
    delivered, history := [], [];
    if canon.Missing? {
      return Some(ReadFileError(canon.path, Io)), delivered, history;
    }
    var loaded: set<string> := {};
    var pending := canon.paths;
    while pending != []
      invariant Run(parse, ops, files, loaded, pending, delivered, history) == ReadAll(parse, ops, files, roots)
      decreases Unloaded(files, loaded), |pending|
    {
      result, loaded, pending, delivered, history := Visit(parse, ops, files, loaded, pending, delivered, history);
      if result.Some? {
        return;
      }
    }
    return None, delivered, history;
  }

  /** `read_files_v2`: the files of a ledger read and parsed with `entry`,
    * following their includes. */
  method ReadFilesV2(scans: External.AccountScanners, ops: PathOps, files: map<string, string>, roots: seq<string>)
    returns (result: Option<ReadFileError>, delivered: seq<Entry>, ghost history: seq<string>)
    ensures Iterators.Consumes(Iterators.LedgerParser(scans))
    ensures result == ReadAll(Iterators.LedgerParser(scans), ops, files, roots).0
    ensures delivered == ReadAll(Iterators.LedgerParser(scans), ops, files, roots).1
    ensures history == ReadAll(Iterators.LedgerParser(scans), ops, files, roots).2
    ensures Outcome(Iterators.LedgerParser(scans), ops, files, roots, result, delivered, history)
  {
    Iterators.EntryConsumes(scans);
    result, delivered, history := ReadFilesWith(Iterators.LedgerParser(scans), ops, files, roots);
  }

  /** The deprecated `read_files`: `read_files_v2` with the path dropped
    * from the error, which keeps only its kind. */
  method ReadFilesDeprecated(scans: External.AccountScanners, ops: PathOps, files: map<string, string>,
                             roots: seq<string>)
    returns (result: Option<ErrorContent>, delivered: seq<Entry>, ghost history: seq<string>, ghost blamed: string)
    ensures Iterators.Consumes(Iterators.LedgerParser(scans))
    ensures var full := if result.None? then None else Some(ReadFileError(blamed, result.value));
            (full, delivered, history) == ReadAll(Iterators.LedgerParser(scans), ops, files, roots) &&
            Outcome(Iterators.LedgerParser(scans), ops, files, roots, full, delivered, history)
  {
    var full;
    full, delivered, history := ReadFilesV2(scans, ops, files, roots);
    if full.None? {
      result, blamed := None, "";
    } else {
      result, blamed := Some(full.value.error), full.value.path;
    }
  }

  /** One turn of the `while let` loop: the path on top of the stack is
    * popped and, unless already loaded, read. */
  method Visit(parse: Iterators.EntryParser, ops: PathOps, files: map<string, string>,
               loaded: set<string>, pending: seq<string>, delivered: seq<Entry>, ghost history: seq<string>)
    returns (result: Option<ReadFileError>, loaded': set<string>, pending': seq<string>, delivered': seq<Entry>,
             ghost history': seq<string>)
    requires Iterators.Consumes(parse)
    requires pending != []
    ensures result.None? ==> Run(parse, ops, files, loaded', pending', delivered', history') ==
                             Run(parse, ops, files, loaded, pending, delivered, history)
    ensures result.None? ==> Unloaded(files, loaded') < Unloaded(files, loaded) ||
                             (loaded' == loaded && |pending'| < |pending|)
    ensures result.Some? ==> (result, delivered', history') == Run(parse, ops, files, loaded, pending, delivered, history)
  {
    var path := pending[|pending| - 1];
    pending' := pending[..|pending| - 1];
    if path in loaded {
      return None, loaded, pending', delivered, history;
    }
    FewerUnloaded(files, loaded, path);
    loaded' := loaded + {path};
    if path !in files {
      return Some(ReadFileError(path, Io)), loaded', pending', delivered, history;
    }
    var pushed, more, err := ReadOne(parse, ops, loaded', path, files[path]);
    return err, loaded', pending' + pushed, delivered + more, history + [path];
  }

  /** What `read_files_v2` promises.  A root with no canonical path ends it
    * before anything is read.  Otherwise each file is read at most once,
    * only existing files are read, every file read is a root or the target
    * of an include of a file read before it, and no include reaches
    * `on_entry`; on success every file was parsed whole, every root and
    * every include of a file read was read, and `on_entry` got the entries
    * of the files in the order read; on failure the error is one of the
    * two ways a reading stops (`NoFile`, `LastFails`). */
  ghost predicate Outcome(parse: Iterators.EntryParser, ops: PathOps, files: map<string, string>, roots: seq<string>,
                          result: Option<ReadFileError>, delivered: seq<Entry>, history: seq<string>)
    requires Iterators.Consumes(parse)
  {
    match Canonicals(ops, roots)
    case Missing(path) => result == Some(ReadFileError(path, Io)) && delivered == [] && history == []
    case Canonical(canon) => Ends(parse, ops, files, canon, result, delivered, history)
  }

  /** The end of the loop started with the canonical roots `canon`. */
  ghost predicate Ends(parse: Iterators.EntryParser, ops: PathOps, files: map<string, string>, canon: seq<string>,
                       result: Option<ReadFileError>, delivered: seq<Entry>, history: seq<string>)
    requires Iterators.Consumes(parse)
  {
    Sound(files, history, delivered) &&
    Reached(parse, ops, files, canon, history) &&
    (result.None? ==>
       AllParse(parse, files, history) &&
       delivered == DeliveredAll(parse, files, history) &&
       (forall p <- canon :: p in history) &&
       Closed(parse, ops, files, history)) &&
    (result.Some? ==>
       NoFile(parse, ops, files, canon, history, delivered, result.value) ||
       LastFails(parse, ops, files, history, delivered, result.value))
  }

  /** Each file is read at most once, only existing files are read, and no
    * include reaches `on_entry`. */
  ghost predicate Sound(files: map<string, string>, history: seq<string>, delivered: seq<Entry>) {
    (forall i, j :: 0 <= i < j < |history| ==> history[i] != history[j]) &&
    (forall r <- history :: r in files) &&
    (forall i :: 0 <= i < |delivered| ==> !delivered[i].IncludeEntry?)
  }

  /** Every file of `history` exists and parses whole. */
  ghost predicate AllParse(parse: Iterators.EntryParser, files: map<string, string>, history: seq<string>)
    requires Iterators.Consumes(parse)
  {
    forall r <- history :: r in files && Parses(parse, files[r])
  }

  /** The reading stops at a path on the stack with no file: an I/O error
    * naming that path, which is a root or the target of an include of a
    * file read; every file read before parsed whole and was handed on. */
  ghost predicate NoFile(parse: Iterators.EntryParser, ops: PathOps, files: map<string, string>, canon: seq<string>,
                         history: seq<string>, delivered: seq<Entry>, err: ReadFileError)
    requires Iterators.Consumes(parse)
  {
    err.error.Io? && err.path !in files &&
    (err.path in canon || exists i :: 0 <= i < |history| && Includes(parse, ops, files, history[i], err.path)) &&
    AllParse(parse, files, history) &&
    delivered == DeliveredAll(parse, files, history)
  }

  /** The reading stops in the last file read: the files before it parsed
    * whole and were handed on, and of the last one the entries before the
    * failure; the error is the first include whose path cannot be
    * canonicalized (an I/O error naming that path) or else a syntax error
    * naming the file. */
  ghost predicate LastFails(parse: Iterators.EntryParser, ops: PathOps, files: map<string, string>,
                            history: seq<string>, delivered: seq<Entry>, err: ReadFileError)
    requires Iterators.Consumes(parse)
  {
    history != [] &&
    var last := history[|history| - 1];
    var before := history[..|history| - 1];
    AllParse(parse, files, before) && last in files &&
    var w := Walk(ops, {}, last, FileEntries(parse, files[last]));
    delivered == DeliveredAll(parse, files, before) + w.delivered &&
    if w.failed.Some? then err == ReadFileError(w.failed.value, Io)
    else !Parses(parse, files[last]) && err == ReadFileError(last, Syntax)
  }

  /** `ReadAll` keeps the promise. */
  lemma ReadAllOutcome(parse: Iterators.EntryParser, ops: PathOps, files: map<string, string>, roots: seq<string>)
    requires Iterators.Consumes(parse)
    ensures var r := ReadAll(parse, ops, files, roots);
            Outcome(parse, ops, files, roots, r.0, r.1, r.2)
  {
    var canon := Canonicals(ops, roots);
    if canon.Canonical? {
      RunEnds(parse, ops, files, canon.paths, {}, canon.paths, [], []);
    }
  }

  /** From any state where the loop invariant holds, the rest of the loop
    * ends as promised. */
  lemma {:induction false} RunEnds(parse: Iterators.EntryParser, ops: PathOps, files: map<string, string>,
                                   canon: seq<string>, loaded: set<string>, pending: seq<string>,
                                   history: seq<string>, delivered: seq<Entry>)
    requires Iterators.Consumes(parse)
    requires Reading(parse, ops, files, canon, loaded, pending, history, delivered)
    ensures var r := Run(parse, ops, files, loaded, pending, delivered, history);
            Ends(parse, ops, files, canon, r.0, r.1, r.2)
    decreases Unloaded(files, loaded), |pending|
  {
    if pending == [] {
      Done(parse, ops, files, canon, loaded, history, delivered);
      return;
    }
    var path := pending[|pending| - 1];
    var below := pending[..|pending| - 1];
    SplitLast(pending);
    if path in loaded {
      Skip(parse, ops, files, canon, loaded, below, history, delivered, path);
      RunEnds(parse, ops, files, canon, loaded, below, history, delivered);
    } else if path !in files {
      Unreadable(parse, ops, files, canon, loaded, below, history, delivered, path);
    } else {
      var w := Walk(ops, loaded + {path}, path, FileEntries(parse, files[path]));
      if w.failed.Some? || !Parses(parse, files[path]) {
        Failed(parse, ops, files, canon, loaded, below, history, delivered, path);
      } else {
        FewerUnloaded(files, loaded, path);
        Read(parse, ops, files, canon, loaded, below, history, delivered, path);
        RunEnds(parse, ops, files, canon, loaded + {path}, below + w.pushed, history + [path], delivered + w.delivered);
      }
    }
  }

  /** The loop invariant of `read_files_v2`: the loaded paths are the files
    * read, each once and without a syntax error, their entries all handed
    * on, and every root and every include of a file read is loaded or
    * pending. */
  ghost predicate Reading(parse: Iterators.EntryParser, ops: PathOps, files: map<string, string>, canon: seq<string>,
                          loaded: set<string>, pending: seq<string>, history: seq<string>, delivered: seq<Entry>)
    requires Iterators.Consumes(parse)
  {
    (forall p :: p in loaded <==> p in history) &&
    (forall i, j :: 0 <= i < j < |history| ==> history[i] != history[j]) &&
    AllParse(parse, files, history) &&
    delivered == DeliveredAll(parse, files, history) &&
    (forall p <- canon :: p in loaded || p in pending) &&
    Traced(parse, ops, files, canon, pending, history) &&
    (forall r <- history ::
       forall p <- IncludePaths(FileEntries(parse, files[r])) ::
         Target(ops, r, p).Some? && (Target(ops, r, p).value in loaded || Target(ops, r, p).value in pending))
  }

  lemma Skip(parse: Iterators.EntryParser, ops: PathOps, files: map<string, string>, canon: seq<string>,
             loaded: set<string>, pending: seq<string>, history: seq<string>, delivered: seq<Entry>, path: string)
    requires Iterators.Consumes(parse)
    requires Reading(parse, ops, files, canon, loaded, pending + [path], history, delivered)
    requires path in loaded
    ensures Reading(parse, ops, files, canon, loaded, pending, history, delivered)
  {
  }

  lemma Read(parse: Iterators.EntryParser, ops: PathOps, files: map<string, string>, canon: seq<string>,
             loaded: set<string>, pending: seq<string>, history: seq<string>, delivered: seq<Entry>, path: string)
    requires Iterators.Consumes(parse)
    requires Reading(parse, ops, files, canon, loaded, pending + [path], history, delivered)
    requires path !in loaded && path in files && Parses(parse, files[path])
    requires Walk(ops, loaded + {path}, path, FileEntries(parse, files[path])).failed.None?
    ensures var w := Walk(ops, loaded + {path}, path, FileEntries(parse, files[path]));
            Reading(parse, ops, files, canon, loaded + {path}, pending + w.pushed, history + [path], delivered + w.delivered)
  {
    var w := Walk(ops, loaded + {path}, path, FileEntries(parse, files[path]));
    var h, d, l, p := history + [path], delivered + w.delivered, loaded + {path}, pending + w.pushed;
    assert forall i, j :: 0 <= i < j < |h| ==> h[i] != h[j] by {
      assert path !in history;
    }
    assert AllParse(parse, files, h);
    assert d == DeliveredAll(parse, files, h) by {
      DeliveredSnoc(parse, files, history, path);
    }
    assert Traced(parse, ops, files, canon, p, h) by {
      ReadTraced(parse, ops, files, canon, pending, history, path, w.pushed);
    }
    assert forall r <- h ::
             forall q <- IncludePaths(FileEntries(parse, files[r])) ::
               Target(ops, r, q).Some? && (Target(ops, r, q).value in l || Target(ops, r, q).value in p);
  }

  /** Reading `path` keeps every file read and pending traced to a root. */
  lemma ReadTraced(parse: Iterators.EntryParser, ops: PathOps, files: map<string, string>, canon: seq<string>,
                   pending: seq<string>, history: seq<string>, path: string, pushed: seq<string>)
    requires Iterators.Consumes(parse)
    requires Traced(parse, ops, files, canon, pending + [path], history)
    requires path in files
    requires forall t <- pushed :: exists p <- IncludePaths(FileEntries(parse, files[path])) :: Target(ops, path, p) == Some(t)
    ensures Traced(parse, ops, files, canon, pending + pushed, history + [path])
  {
    var h := history + [path];
    forall j | 0 <= j < |h| && h[j] !in canon
      ensures exists i :: 0 <= i < j && Includes(parse, ops, files, h[i], h[j])
    {
      if j < |history| {
        var i :| 0 <= i < j && Includes(parse, ops, files, history[i], history[j]);
        assert h[i] == history[i];
      } else {
        assert path in pending + [path];
        var i :| 0 <= i < |history| && Includes(parse, ops, files, history[i], path);
        assert h[i] == history[i];
      }
    }
    forall t | t in pending + pushed && t !in canon
      ensures exists i :: 0 <= i < |h| && Includes(parse, ops, files, h[i], t)
    {
      if t in pushed {
        assert h[|history|] == path && Includes(parse, ops, files, path, t);
      } else {
        assert t in pending + [path];
        var i :| 0 <= i < |history| && Includes(parse, ops, files, history[i], t);
        assert h[i] == history[i];
      }
    }
  }

  lemma Done(parse: Iterators.EntryParser, ops: PathOps, files: map<string, string>, canon: seq<string>,
             loaded: set<string>, history: seq<string>, delivered: seq<Entry>)
    requires Iterators.Consumes(parse)
    requires Reading(parse, ops, files, canon, loaded, [], history, delivered)
    ensures Ends(parse, ops, files, canon, None, delivered, history)
  {
  }

  lemma Unreadable(parse: Iterators.EntryParser, ops: PathOps, files: map<string, string>, canon: seq<string>,
                   loaded: set<string>, pending: seq<string>, history: seq<string>, delivered: seq<Entry>, path: string)
    requires Iterators.Consumes(parse)
    requires Reading(parse, ops, files, canon, loaded, pending + [path], history, delivered)
    requires path !in files
    ensures Ends(parse, ops, files, canon, Some(ReadFileError(path, Io)), delivered, history)
  {
    assert path in pending + [path];
  }

  lemma Failed(parse: Iterators.EntryParser, ops: PathOps, files: map<string, string>, canon: seq<string>,
               loaded: set<string>, pending: seq<string>, history: seq<string>, delivered: seq<Entry>, path: string)
    requires Iterators.Consumes(parse)
    requires Reading(parse, ops, files, canon, loaded, pending + [path], history, delivered)
    requires path !in loaded && path in files
    ensures var w := Walk(ops, loaded + {path}, path, FileEntries(parse, files[path]));
            var err := if w.failed.Some? then Some(ReadFileError(w.failed.value, Io))
                       else if !Parses(parse, files[path]) then Some(ReadFileError(path, Syntax))
                       else None;
            err.Some? ==> Ends(parse, ops, files, canon, err, delivered + w.delivered, history + [path])
  {
    var es := FileEntries(parse, files[path]);
    var w := Walk(ops, loaded + {path}, path, es);
    var h, d := history + [path], delivered + w.delivered;
    assert Sound(files, h, d) by {
      NoIncludes(delivered, w.delivered);
      assert path !in history;
    }
    assert Reached(parse, ops, files, canon, h) by {
      ReadTraced(parse, ops, files, canon, pending, history, path, []);
    }
    if w.failed.Some? || !Parses(parse, files[path]) {
      var err := if w.failed.Some? then ReadFileError(w.failed.value, Io) else ReadFileError(path, Syntax);
      assert LastFails(parse, ops, files, h, d, err) by {
        WalkLoaded(ops, loaded + {path}, path, es);
        assert h[..|h| - 1] == history;
      }
    }
  }

  /** What a walk hands on and where it fails do not depend on the paths
    * loaded, which only decide what it pushes. */
  lemma {:induction false} WalkLoaded(ops: PathOps, loaded: set<string>, base: string, es: seq<Entry>)
    ensures Walk(ops, loaded, base, es).delivered == Walk(ops, {}, base, es).delivered
    ensures Walk(ops, loaded, base, es).failed == Walk(ops, {}, base, es).failed
    decreases |es|
  {
    if es != [] {
      WalkLoaded(ops, loaded, base, es[..|es| - 1]);
    }
  }

  /** How many files are left to load: the loop's measure. */
  function Unloaded(files: map<string, string>, loaded: set<string>): nat {
    |files.Keys - loaded|
  }

  lemma FewerUnloaded(files: map<string, string>, loaded: set<string>, path: string)
    requires path !in loaded
    ensures path in files ==> Unloaded(files, loaded + {path}) < Unloaded(files, loaded)
  {
    if path in files {
      assert files.Keys - loaded == (files.Keys - (loaded + {path})) + {path};
    }
  }

  lemma SplitLast(s: seq<string>)
    requires s != []
    ensures s == s[..|s| - 1] + [s[|s| - 1]]
  {
  }

  lemma NoIncludes(a: seq<Entry>, b: seq<Entry>)
    requires forall i :: 0 <= i < |a| ==> !a[i].IncludeEntry?
    requires forall i :: 0 <= i < |b| ==> !b[i].IncludeEntry?
    ensures forall i :: 0 <= i < |a + b| ==> !(a + b)[i].IncludeEntry?
  {
  }

  lemma DeliveredSnoc(parse: Iterators.EntryParser, files: map<string, string>, history: seq<string>, path: string)
    requires Iterators.Consumes(parse)
    requires forall r <- history :: r in files
    requires path in files
    ensures DeliveredAll(parse, files, history + [path]) ==
            DeliveredAll(parse, files, history) + Delivered(FileEntries(parse, files[path]))
  {
    assert (history + [path])[..|history|] == history;
  }

  /** The walk over one more entry, when it has not failed yet. */
  lemma WalkSnoc(ops: PathOps, loaded: set<string>, base: string, es: seq<Entry>, e: Entry)
    requires Walk(ops, loaded, base, es).failed.None?
    ensures var w, w' := Walk(ops, loaded, base, es), Walk(ops, loaded, base, es + [e]);
            var target := if e.IncludeEntry? then Target(ops, base, e.path) else None;
            (!e.IncludeEntry? ==> w' == Walked(w.pushed, w.delivered + [e], None)) &&
            (e.IncludeEntry? && target.None? ==> w' == Walked(w.pushed, w.delivered, Some(Joined(ops, base, e.path)))) &&
            (e.IncludeEntry? && target.Some? && target.value in loaded ==> w' == w) &&
            (e.IncludeEntry? && target.Some? && target.value !in loaded ==>
               w' == Walked(w.pushed + [target.value], w.delivered, None))
  {
    assert (es + [e])[..|es|] == es;
  }

  /** Once an include fails, the walk over the whole file fails the same way. */
  lemma WalkFailed(ops: PathOps, loaded: set<string>, base: string, seen: seq<Entry>,
                   parse: Iterators.EntryParser, text: string, outs: seq<Iterators.Item>)
    requires Iterators.Consumes(parse)
    requires outs == Iterators.Outputs(parse, {}, text)
    requires exists after :: outs == Iterators.Yields(seen) + after
    requires Walk(ops, loaded, base, seen).failed.Some?
    ensures Walk(ops, loaded, base, FileEntries(parse, text)) == Walk(ops, loaded, base, seen)
  {
    var all := FileEntries(parse, text);
    PrefixOfEntries(parse, text, seen, outs);
    WalkPrefixFailed(ops, loaded, base, seen, all[|seen|..]);
    assert seen + all[|seen|..] == all;
  }

  /** The entries yielded so far are a prefix of the file's entries. */
  lemma PrefixOfEntries(parse: Iterators.EntryParser, text: string, seen: seq<Entry>, outs: seq<Iterators.Item>)
    requires Iterators.Consumes(parse)
    requires outs == Iterators.Outputs(parse, {}, text)
    requires exists after :: outs == Iterators.Yields(seen) + after
    ensures |seen| <= |FileEntries(parse, text)| && FileEntries(parse, text)[..|seen|] == seen
  {
    var all := FileEntries(parse, text);
    var after :| outs == Iterators.Yields(seen) + after;
    var end := Iterators.Raws(parse, text).1;
    var tail: seq<Iterators.Item> := if end.Ok? && end.rest == [] then [] else [Iterators.SyntaxError];
    assert outs == Iterators.Yields(all) + tail;
    if |all| < |seen| {
      Iterators.EntryAt(seen, after, |all|);
      assert false;
    }
    forall i | 0 <= i < |seen|
      ensures all[i] == seen[i]
    {
      Iterators.EntryAt(seen, after, i);
      Iterators.EntryAt(all, tail, i);
    }
  }

  lemma {:induction false} WalkPrefixFailed(ops: PathOps, loaded: set<string>, base: string, es: seq<Entry>, more: seq<Entry>)
    requires Walk(ops, loaded, base, es).failed.Some?
    ensures Walk(ops, loaded, base, es + more) == Walk(ops, loaded, base, es)
    decreases |more|
  {
    if more != [] {
      var init := more[..|more| - 1];
      assert (es + more)[..|es + more| - 1] == es + init;
      WalkPrefixFailed(ops, loaded, base, es, init);
    } else {
      assert es + more == es;
    }
  }
}
