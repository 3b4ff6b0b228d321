/**
 * src/nom_parser.rs: `Parser`, an iterator over the directives of a
 * document.  Each call of `next` reads chunks from the rest of the input
 * until one is a directive: a `pushtag` chunk appends its tag to the tag
 * list, a `poptag` chunk removes every occurrence of its tag, and any other
 * line is skipped as a comment.  A returned transaction gets the tag list
 * appended to its own tags.  A chunk that cannot be read yields one error and
 * empties the rest, so that the iteration ends.
 *
 * The `directive` parser is a parameter of the parser object, so that the
 * proofs about the loop do not depend on its many alternatives; `Standard`
 * is the one the source uses.
 */
module NomParsers {
  import opened Nom
  import Directives
  import Transactions

  type Directive = Directives.Directive

  /** A parser of directives. */
  type DirectiveParser = string -> Res<Directive>

  /** `parser` reads input whenever it reads something. */
  ghost predicate Consumes(parser: DirectiveParser) {
    forall s :: parser(s).Ok? ==> |parser(s).rest| < |s|
  }

  /** `directive` of src/directive.rs, with `close` as its close parser. */
  function Standard(close: Directives.CloseParser): DirectiveParser {
    s => Directives.ParseDirective(close, s)
  }

  /** `directive` reads input whenever it reads a directive, provided the
    * close parser does. */
  lemma StandardConsumes(close: Directives.CloseParser)
    requires forall s :: close(s).Ok? ==> |close(s).rest| < |s|
    ensures Consumes(Standard(close))
  {
    forall s | Standard(close)(s).Ok?
      ensures |Standard(close)(s).rest| < |s|
    {
      AltConsumes(Directives.Attempt(close, s), s);
    }
  }

  lemma AltConsumes(at: Directives.Attempts, s: string)
    requires at.transaction.Ok? ==> |at.transaction.rest| < |s|
    requires at.price.Ok? ==> |at.price.rest| < |s|
    requires at.opening.Ok? ==> |at.opening.rest| < |s|
    requires at.closing.Ok? ==> |at.closing.rest| < |s|
    requires at.assertion.Ok? ==> |at.assertion.rest| < |s|
    requires at.pad.Ok? ==> |at.pad.rest| < |s|
    requires at.inclusion.Ok? ==> |at.inclusion.rest| < |s|
    ensures Directives.Alt(at).Ok? ==> |Directives.Alt(at).rest| < |s|
  {
  }

  /** What one step of the parser reads. */
  datatype Chunk =
    | DirectiveChunk(directive: Directive)
    | PushTag(tag: string)
    | PopTag(tag: string)
    | Comment

  /** `pushtag` and `poptag`: the keyword, blanks read by nom's streaming
    * `space1` (running out of input is a failure), then a tag. */
  function TagOperation(keyword: string, s: string): (r: Res<string>)
    requires keyword != []
    ensures r.Ok? ==> Tag(keyword, s).Ok? && |r.rest| < |s| && Transactions.IsTagText(r.value)
  {
    var kw := Tag(keyword, s);
    if !kw.Ok? then Forward(kw) else
    var gap := Space1Streaming(kw.rest);
    if !gap.Ok? then Forward(gap) else
    Transactions.ParseTag(gap.rest)
  }

  /** The last alternative: the rest of the line and its line ending, if
    * there is one; a lone carriage return is an error. */
  function CommentLine(s: string): (r: Res<()>)
    ensures !r.Failure?
    ensures r.Ok? && s != [] ==> |r.rest| < |s|
    ensures r.Error? <==> LoneCarriageReturn(s)
  {
    var text := NotLineEnding(s);
    if !text.Ok? then Forward(text) else
    var end := LineEnding(text.rest);
    Ok((), if end.Ok? then end.rest else text.rest)
  }

  /** `chunk`: the first of a directive, a `pushtag`, a `poptag` or a
    * comment that does not fail recoverably. */
  function ParseChunk(directive: DirectiveParser, s: string): (r: Res<Chunk>)
    requires Consumes(directive)
    ensures r.Ok? && s != [] ==> |r.rest| < |s|
    ensures directive(s).Ok? ==> r == Ok(DirectiveChunk(directive(s).value), directive(s).rest)
    ensures r.Ok? && r.value.DirectiveChunk? ==> directive(s) == Ok(r.value.directive, r.rest)
  {
    var d := directive(s);
    if d.Ok? then Ok(DirectiveChunk(d.value), d.rest)
    else if d.Failure? then Failure else
    var push := TagOperation("pushtag", s);
    if push.Ok? then Ok(PushTag(push.value), push.rest)
    else if push.Failure? then Failure else
    var pop := TagOperation("poptag", s);
    if pop.Ok? then Ok(PopTag(pop.value), pop.rest)
    else if pop.Failure? then Failure else
    var comment := CommentLine(s);
    if comment.Ok? then Ok(Comment, comment.rest) else Forward(comment)
  }

  /** `retain(|&t| t != tag)`: the tags other than `tag`, in their order. */
  function Retain(tags: seq<string>, tag: string): (r: seq<string>)
    ensures tag !in r
    ensures |r| <= |tags|
  {
    if tags == [] then []
    else
      var rest := Retain(tags[1..], tag);
      if tags[0] == tag then rest else [tags[0]] + rest
  }

  /** A parser of chunks. */
  type ChunkParser = string -> Res<Chunk>

  /** `chunk` reads input whenever it reads a chunk of non-empty input. */
  ghost predicate Advances(chunk: ChunkParser) {
    forall s :: s != [] && chunk(s).Ok? ==> |chunk(s).rest| < |s|
  }

  /** `chunk` over the given directive parser. */
  function Chunker(directive: DirectiveParser): ChunkParser
    requires Consumes(directive)
  {
    s => ParseChunk(directive, s)
  }

  lemma ChunkerAdvances(directive: DirectiveParser)
    requires Consumes(directive)
    ensures Advances(Chunker(directive))
  {
  }

  /** What `next` hands out besides nothing. */
  datatype Item = Parsed(directive: Directive) | Failed

  /** The fields of a parser. */
  datatype State = State(rest: string, tags: seq<string>, line: nat)

  /** A directive as returned: a transaction gains the tags after its own. */
  function Tagged(d: Directive, tags: seq<string>): (r: Directive)
    ensures r.Transaction? <==> d.Transaction?
    ensures r.Transaction? ==> r.transaction.tags == d.transaction.tags + tags &&
                               r.transaction.(tags := d.transaction.tags) == d.transaction
    ensures !d.Transaction? ==> r == d
  {
    if d.Transaction? then Directives.Transaction(Transactions.AppendTags(d.transaction, tags)) else d
  }

  /** The postings of a transaction, which `line` counts. */
  function Postings(d: Directive): nat {
    if d.Transaction? then |d.transaction.postings| else 0
  }

  /** The tags after a chunk: a `pushtag` appends, a `poptag` removes every
    * occurrence, anything else leaves them. */
  function Retagged(tags: seq<string>, c: Chunk): seq<string> {
    match c
    case PushTag(t) => tags + [t]
    case PopTag(t) => Retain(tags, t)
    case _ => tags
  }

  /** What a call of `next` returns and the state it leaves, reading the
    * input with `chunk`. */
  function NextOf(chunk: ChunkParser, st: State): (r: (Option<Item>, State))
    requires Advances(chunk)
    ensures st.rest == [] ==> r == (None, st)
    ensures r.0.None? ==> r.1.rest == []
    ensures r.0 == Some(Failed) ==> r.1.rest == []
    ensures st.rest != [] ==> |r.1.rest| < |st.rest|
    ensures r.1.line >= st.line
    ensures r.0.Some? && r.0.value.Parsed? ==> r.1.line >= st.line + 1 + Postings(r.0.value.directive)
    decreases |st.rest|
  {
    if st.rest == [] then (None, st) else
    var c := chunk(st.rest);
    if !c.Ok? then (Some(Failed), st.(rest := [])) else
    var line := st.line + 1;
    if c.value.DirectiveChunk? then
      var d := c.value.directive;
      (Some(Parsed(Tagged(d, st.tags))), State(c.rest, st.tags, line + Postings(d)))
    else NextOf(chunk, State(c.rest, Retagged(st.tags, c.value), line))
  }

  class Parser {
    const directive: DirectiveParser
    /** The `chunk` function over `directive`. */
    const chunk: ChunkParser
    var rest: string
    var tags: seq<string>
    var line: nat

    /** `new`: the whole input to read, no tags, and line 1. */
    constructor (directive: DirectiveParser, content: string)
      requires Consumes(directive)
      ensures this.directive == directive && chunk == Chunker(directive)
      ensures rest == content && tags == [] && line == 1
    {
      this.directive := directive;
      chunk := Chunker(directive);
      rest := content;
      tags := [];
      line := 1;
    }

    function Fields(): State
      reads this
    {
      State.State(rest, tags, line)
    }

    /** `next`. */
    method Next() returns (r: Option<Item>)
      requires Advances(chunk)
      modifies this
      ensures (r, Fields()) == NextOf(chunk, old(Fields()))
    {
      while rest != []
        invariant NextOf(chunk, Fields()) == NextOf(chunk, old(Fields()))
        decreases |rest|
      {
        var c := chunk(rest);
        if c.Ok? {
          line := line + 1;
          rest := c.rest;
          match c.value
          case DirectiveChunk(d) =>
            var out := d;
            if d.Transaction? {
              line := line + |d.transaction.postings|;
              out := Directives.Transaction(Transactions.AppendTags(d.transaction, tags));
            }
            return Some(Parsed(out));
          case PushTag(t) =>
            tags := tags + [t];
          case PopTag(t) =>
            tags := Retain(tags, t);
          case Comment =>
        } else {
          rest := [];
          return Some(Failed);
        }
      }
      return None;
    }
  }

  // ------------------------------------------------------------- properties

  /** Once `next` has returned nothing or an error, every later call returns
    * nothing and changes nothing. */
  lemma Exhausted(chunk: ChunkParser, st: State)
    requires Advances(chunk)
    requires var r := NextOf(chunk, st); r.0.None? || r.0 == Some(Failed)
    ensures var after := NextOf(chunk, st).1; NextOf(chunk, after) == (None, after)
  {
  }

  /** A `pushtag` keeps every tag and adds one occurrence of its own at the
    * end; a `poptag` removes every occurrence of its tag and keeps every
    * occurrence of the others; other chunks change nothing. */
  lemma Retagging(tags: seq<string>, c: Chunk)
    ensures var r := Retagged(tags, c);
            (c.PushTag? ==> multiset(r) == multiset(tags) + multiset{c.tag} && |r| == |tags| + 1 &&
                            r[..|tags|] == tags && r[|tags|] == c.tag) &&
            (c.PopTag? ==> c.tag !in r && multiset(r) == multiset(tags)[c.tag := 0]) &&
            (c.Comment? || c.DirectiveChunk? ==> r == tags)
  {
    if c.PopTag? {
      RetainCounts(tags, c.tag);
    }
  }

  /** `retain` keeps every occurrence of the other tags. */
  lemma {:induction false} RetainCounts(tags: seq<string>, tag: string)
    ensures multiset(Retain(tags, tag)) == multiset(tags)[tag := 0]
  {
    if tags != [] {
      RetainCounts(tags[1..], tag);
      assert tags == [tags[0]] + tags[1..];
    }
  }

  /** Removing a tag from a concatenation removes it from each part. */
  lemma {:induction false} RetainAppend(a: seq<string>, b: seq<string>, tag: string)
    ensures Retain(a + b, tag) == Retain(a, tag) + Retain(b, tag)
  {
    if a == [] {
      assert a + b == b;
    } else {
      assert (a + b)[0] == a[0] && (a + b)[1..] == a[1..] + b;
      RetainAppend(a[1..], b, tag);
      if a[0] != tag {
        calc {
          Retain(a + b, tag);
          [a[0]] + Retain(a[1..] + b, tag);
          [a[0]] + (Retain(a[1..], tag) + Retain(b, tag));
          ([a[0]] + Retain(a[1..], tag)) + Retain(b, tag);
          Retain(a, tag) + Retain(b, tag);
        }
      }
    }
  }

  /** Popping a tag that is not pushed leaves the tags as they are. */
  lemma {:induction false} PopAbsent(tags: seq<string>, tag: string)
    requires tag !in tags
    ensures Retain(tags, tag) == tags
  {
    if tags != [] {
      PopAbsent(tags[1..], tag);
    }
  }

  /** A tag pushed twice is kept twice, and one pop removes both. */
  lemma PushTwicePopOnce(tags: seq<string>, tag: string)
    ensures multiset(tags + [tag] + [tag])[tag] == multiset(tags)[tag] + 2
    ensures Retain(tags + [tag] + [tag], tag) == Retain(tags, tag)
  {
    RetainAppend(tags, [tag, tag], tag);
    assert tags + [tag] + [tag] == tags + [tag, tag];
  }

  /** The tags pushed by consecutive `pushtag` chunks come after the earlier
    * ones, in push order, and so after the transaction's own tags. */
  lemma PushOrder(t: Transactions.Transaction, tags: seq<string>, a: string, b: string)
    ensures var d := Tagged(Directives.Transaction(t), tags + [a] + [b]);
            d.transaction.tags == t.tags + tags + [a, b]
  {
  }

  /** A transaction read as the next chunk is returned with the current tags
    * after its own; `line` counts its chunk and its postings. */
  lemma TransactionTagged(chunk: ChunkParser, st: State, t: Transactions.Transaction, after: string)
    requires Advances(chunk)
    requires st.rest != [] && chunk(st.rest) == Ok(DirectiveChunk(Directives.Transaction(t)), after)
    ensures var r := NextOf(chunk, st);
            r.0.Some? && r.0.value.Parsed? && r.0.value.directive.Transaction? &&
            r.0.value.directive.transaction.tags == t.tags + st.tags &&
            r.0.value.directive.transaction.(tags := t.tags) == t &&
            r.1 == State(after, st.tags, st.line + 1 + |t.postings|)
  {
  }

  /** Lines that start with ';', each with its line ending. */
  function Lines(ls: seq<string>): string {
    if ls == [] then [] else ls[0] + "\n" + Lines(ls[1..])
  }

  predicate CommentText(l: string) {
    l != [] && l[0] == ';' && forall i :: 0 <= i < |l| ==> NotLineBreak(l[i])
  }

  /** `chunk` reads a comment line, line ending included, as one `Comment`. */
  ghost predicate SkipsComments(chunk: ChunkParser) {
    forall l, more :: CommentText(l) ==> chunk(l + "\n" + more) == Ok(Comment, more)
  }

  /** A comment line is read as one `Comment` chunk, when no directive
    * starts with ';'. */
  lemma ChunkerSkipsComments(directive: DirectiveParser)
    requires Consumes(directive)
    requires forall s :: s != [] && s[0] == ';' ==> directive(s).Error?
    ensures SkipsComments(Chunker(directive))
  {
    var chunk := Chunker(directive);
    forall l, more | CommentText(l)
      ensures chunk(l + "\n" + more) == Ok(Comment, more)
    {
      var s := l + "\n" + more;
      assert s[0] == ';';
      assert chunk(s) == ParseChunk(directive, s);
      CommentChunk(directive, l, more);
    }
  }

  lemma CommentChunk(directive: DirectiveParser, l: string, more: string)
    requires Consumes(directive)
    requires CommentText(l) && directive(l + "\n" + more).Error?
    ensures ParseChunk(directive, l + "\n" + more) == Ok(Comment, more)
  {
    var s := l + "\n" + more;
    NoTagOperation("pushtag", s);
    NoTagOperation("poptag", s);
    CommentLineOf(l, more);
  }

  /** Input starting with ';' is no `pushtag` and no `poptag`. */
  lemma NoTagOperation(keyword: string, s: string)
    requires keyword != [] && keyword[0] != ';'
    requires s != [] && s[0] == ';'
    ensures TagOperation(keyword, s).Error?
  {
    if |keyword| <= |s| {
      assert s[..|keyword|][0] != keyword[0];
    }
  }

  /** A comment line is read up to and including its line ending. */
  lemma CommentLineOf(l: string, more: string)
    requires CommentText(l)
    ensures CommentLine(l + "\n" + more) == Ok((), more)
  {
    var s := l + "\n" + more;
    assert s == l + ("\n" + more);
    NotLineEndingOfLine(l, "\n" + more);
    assert LineEnding("\n" + more) == Ok("\n", more);
  }

  /** An input of comment lines yields no directive: `next` returns nothing,
    * the tags are untouched and `line` counts every line. */
  lemma {:induction false} CommentsOnly(chunk: ChunkParser, ls: seq<string>, tags: seq<string>, line: nat)
    requires Advances(chunk) && SkipsComments(chunk)
    requires forall i :: 0 <= i < |ls| ==> CommentText(ls[i])
    ensures NextOf(chunk, State(Lines(ls), tags, line)) == (None, State([], tags, line + |ls|))
  {
    if ls != [] {
      var more := Lines(ls[1..]);
      assert chunk(ls[0] + "\n" + more) == Ok(Comment, more);
      CommentsOnly(chunk, ls[1..], tags, line + 1);
    }
  }
}
