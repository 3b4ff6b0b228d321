/**
 * src/transaction/mod.rs, the flag of a transaction or posting: `*` marks it
 * cleared, `!` pending.  Kept in a module of its own because the postings of
 * the same generation read it as well.
 */
module TransactionFlag {
  import opened Nom

  datatype Flag = Cleared | Pending

  /** The character each flag is written with. */
  function FlagChar(f: Flag): char {
    match f
    case Cleared => '*'
    case Pending => '!'
  }

  /** `flag`: `*` or `!`. */
  function ParseFlag(s: string): (r: Res<Flag>)
    ensures !r.Failure?
    ensures r.Ok? <==> s != [] && (s[0] == '*' || s[0] == '!')
    ensures r.Ok? ==> FlagChar(r.value) == s[0] && r.rest == s[1..]
  {
    var cleared := Char('*', s);
    if cleared.Ok? then Ok(Cleared, cleared.rest) else
    var pending := Char('!', s);
    if pending.Ok? then Ok(Pending, pending.rest) else Error
  }

  /** Writing a flag and reading it back gives the same flag. */
  lemma FlagRoundTrip(f: Flag, rest: string)
    ensures ParseFlag([FlagChar(f)] + rest) == Ok(f, rest)
  {
    assert ([FlagChar(f)] + rest)[1..] == rest;
  }
}
