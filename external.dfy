/**
 * Scanners whose grammar is not part of this model.  The `account` module of
 * the generation built around src/lib.rs (its `parse`, `balance`, `open`,
 * `close` and `pad`) and `close::close` of src/directive.rs are used by the
 * modelled parsers but their source is absent; each becomes a parameter that
 * says how long a prefix of its input it matches, if any.  The value such a
 * scanner produces is kept as the text it matched.
 */
module External {
  import opened Nom

  /** What an unmodelled scanner does with its input: it matches a prefix of
    * the given length, fails recoverably, or fails for good. */
  datatype Scan = Matched(length: nat) | Unmatched | Failed

  type Scanner = string -> Scan

  /** Runs a scanner on `s`; a match longer than the input counts as no match. */
  function Run(scan: Scanner, s: string): (r: Res<string>)
    ensures r.Ok? ==> s == r.value + r.rest
    ensures r.Ok? <==> scan(s).Matched? && scan(s).length <= |s|
    ensures r.Failure? <==> scan(s).Failed?
  {
    match scan(s)
    case Matched(n) => if n <= |s| then Ok(s[..n], s[n..]) else Error
    case Unmatched => Error
    case Failed => Failure
  }

  /** A scanner that matches exactly `text` at the start of its input reads it. */
  lemma RunMatched(scan: Scanner, text: string, rest: string)
    requires scan(text + rest) == Matched(|text|)
    ensures Run(scan, text + rest) == Ok(text, rest)
  {
    assert (text + rest)[..|text|] == text;
    assert (text + rest)[|text|..] == rest;
  }

  /** The scanners of the `account` module of the src/lib.rs generation. */
  datatype AccountScanners = AccountScanners(
    account: Scanner,
    balance: Scanner,
    open: Scanner,
    close: Scanner,
    pad: Scanner)
}
