# beancount-parser, modelled in Dafny

A model of the parsing core of `beancount-parser`, a Rust library that reads
ledgers written in the Beancount plain-text accounting language, together
with proofs about it. The library is built from `nom` parser combinators, and
its source tree holds several generations of the same grammar side by side.
Each source file is modelled as its own module, and the generations are kept
apart.

- **Parser results.** Module `Nom` (nom.dfy) gives a parser's outcome as
  `Ok(value, rest) | Error | Failure`. `alt`, `opt` and `many0` move on only
  after a recoverable `Error`, and `cut` turns `Error` into `Failure`. Blank
  means a space or a tab.
- **Lexical scanners.**
  - quoted strings with escapes and `;` comments (`Strings`, and `LibLexer`
    for the hand-written loop in src/lib.rs);
  - dates, in two generations (`Dates`, `ParserDates`);
  - accounts and their display round trip (`Accounts`);
  - currency codes (`Currencies`, `AmountParser`, `ExprAmount`);
  - metadata lines (`Metadata`).
- **Amount arithmetic.**
  - the precedence-climbing expression grammar with its evaluator
    (`AmountExpression`);
  - the older right-nested grammar (`RightExpression`);
  - the division-only prototype (`DivisionAmount`);
  - the per-currency accumulator `Amounts` (`AmountSum`, a class whose map
    is updated in place).
  - The decimal type `D` is an exact `real` (`Decimals`).
- **Directives and transactions.**
  - the transaction grammar of the src/lib.rs generation (`LibTransaction`);
  - the newer transaction and posting grammar of src/transaction/
    (`TransactionFlag`, `Transactions`, `TransactionPostings`) and its
    `balanced` conversion (`Balanced`, an imperative loop);
  - the earliest grammar of src/transacion/ (`EarlyTransactions`,
    `EarlyPostings`);
  - the other directives (`Directives`, `Opens`, `Prices`, `Assertions`,
    `Pads`, `Includes`, `Events`, `Closes`).
- **Entry streams.**
  - the entries of src/lib.rs (`LibEntries`);
  - the tag-stamping iterators `Iter` of src/iterator.rs (`Iterators`) and
    `Parser` of src/nom_parser.rs (`NomParsers`), both classes with the
    source's mutable fields;
  - `BeancountFile` with `extend` and `option` (`BeancountFiles`);
  - the include worklist of `read_files_v2` (`ReadFiles`), a method with a
    `loaded` set and a `pending` stack.

Scanners whose source is not part of this model are parameters (`External`).
These are the `account` module of the src/lib.rs generation and
`close::close`.

Where a test and the code disagree, the model follows the code:
- tests/parser_spec.rs:288-294 expects the currency `A1` to be accepted.
  src/amount.rs:65 rejects it, and so does `AmountParser`.
- tests/parse_from_file_spec.rs:13 counts include entries. `read_files_v2`
  never passes them on, and neither does `ReadFiles`.
- src/transacion/posting.rs uses a `super::flag` that src/transacion/mod.rs
  does not define. Its test expects the newer `Flag::Pending`, so the model
  uses the flag of src/transaction/mod.rs (`TransactionFlag`).

Where a `use` names something the source tree does not settle, the model
chooses as follows:
- src/metadata.rs:39 parses a number value with `amount::expression`. The
  model parses it with `AmountExpression.Parse`, the expression grammar of
  src/amount/expression.rs, and stores the evaluated value
  (`Metadata.ParseValue`, `Metadata.NumberValueOf`).
- src/transaction/mod.rs:16 imports `crate::date::date`, but src/date.rs
  defines `parse`, not `date`. The model uses the `date` of
  src/parser/date.rs:10 (`ParserDates`).
- src/open.rs:10 and src/price.rs:1 import `amount` and `currency` from
  `crate::amount`. Both src/amount.rs and src/amount/mod.rs could be that
  module. The model takes them from src/amount/mod.rs (`ExprAmount`), not
  from src/amount.rs (`AmountParser`).

## Model

| member | source | states |
|---|---|---|
| Strings.Unescape | src/string.rs:17-22 | exactly `\`, `"`, `n` and `t` after a backslash have a meaning |
| Strings.EscapedTransform | src/string.rs:14-23 | never fails for good; on success what is left is a suffix of the input that is empty or starts at a quote |
| Strings.QuotedString | src/string.rs:10-28 | never fails for good; success needs an opening quote and consumes at least both quotes |
| Strings.QuotedStringRoundTrip | src/string.rs:10-28 | decoding undoes escaping for every text, consumes the closing quote and leaves the rest untouched |
| Strings.EscapedRoundTrip | src/string.rs:14-23 | the escaped body of any text decodes back to that text and stops at what follows |
| Strings.PlainStep | src/string.rs:15 | a plain character is decoded to itself and decoding goes on after it |
| Strings.EscapeStep | src/string.rs:16-22 | a known escape is decoded to the character it stands for and decoding goes on after it |
| Strings.EmptyQuotedString | src/string.rs:24 | `""` is the empty string with nothing left |
| Strings.QuotedStringRejectsUnknownEscape | src/string.rs:17-22 | a backslash followed by any character other than `\`, `"`, `n`, `t` is an error |
| Strings.Comment | src/string.rs:30-32 | never fails for good; success needs a leading `;` and leaves a suffix of the input |
| Strings.CommentOfLine | src/string.rs:30-32 | any number of leading `;` are skipped, the rest of the line is returned trimmed, the line ending is left in place |
| Strings.CommentLine | src/string.rs:34-37 | never fails for good; an input starting with a date shape is rejected; on success value and rest make up the input |
| Strings.CommentLineOfLine | src/string.rs:34-37 | exactly one line is consumed, with its line ending when it has one |
| LibLexer.Body | src/lib.rs:496-507 | what the loop reads stops at the end of the input or at a character that is not plain; the text is empty exactly when the first run is empty |
| LibLexer.QuotedString | src/lib.rs:493-510 | never fails for good; success needs an opening quote and consumes input |
| LibLexer.ParseString | src/lib.rs:493-510 | the loop over the mutable input and part, appending runs and escapes to the output, returns exactly what `QuotedString` specifies |
| LibLexer.BodyOfRun | src/lib.rs:498-506 | one turn of the loop: a plain run is appended, and an escape continues the loop while anything else stops it |
| LibLexer.BodyStops | src/lib.rs:498 | the loop adds nothing once the run is empty |
| LibLexer.PlainString | src/lib.rs:493-510 | text without quotes or backslashes comes back unchanged, the closing quote is consumed, and `""` is the empty string |
| LibLexer.EscapeAfterRun | src/lib.rs:499-506 | after a non-empty plain run, `\"` decodes to a quote and `\\` to a backslash, and decoding goes on with what follows |
| LibLexer.RejectsOtherEscape | src/lib.rs:501-508 | a backslash followed by anything but a quote or a backslash is an error, `\n` and `\t` included |
| LibLexer.EscapeFirstFails | src/lib.rs:497-498 | an escape right after the opening quote is an error |
| LibLexer.EscapeAfterEscapeFails | src/lib.rs:504-506 | an escape right after another escape is an error |
| LibLexer.Comment | src/lib.rs:476-480 | never fails for good; success needs a `;` and stops at a line ending or the end of the input |
| LibLexer.EndOfLine | src/lib.rs:469-474 | never fails for good; on success it leaves a suffix of the input |
| LibLexer.EndOfLineOf | src/lib.rs:469-474 | blanks, an optional comment and a line ending (or the end of the input) make a line end, and the next line is left untouched |
| LibLexer.EndOfLineRejects | src/lib.rs:469-474 | any other character after the blanks is an error |
| LibLexer.Line | src/lib.rs:482-486 | never fails for good; success consumes at least one character |
| LibLexer.LineOf | src/lib.rs:482-486 | one whole line with its line ending is consumed, and a last line without a line ending is an error |
| Dates.Year | src/date.rs:37-39 | never fails for good; success reads exactly four characters |
| Dates.Month | src/date.rs:41-46 | never fails for good; success reads exactly two characters whose value lies in 1..12 |
| Dates.Day | src/date.rs:48-53 | never fails for good; success reads exactly two characters whose value lies in 1..31 |
| Dates.DoParse | src/date.rs:28-35 | never fails for good; success reads exactly ten characters |
| Dates.Parse | src/date.rs:23-26 | the error is recoverable exactly when the input does not look like digits-dash-digits-dash-digits; success consumes input |
| Dates.DigitsField | src/date.rs:37-53 | a fixed-width field starting with a digit parses exactly when it is all digits, as the number they denote |
| Dates.YearField | src/date.rs:37-39 | the year is read exactly when its four characters are digits |
| Dates.MonthField | src/date.rs:41-46 | the month is read exactly when its two characters are digits with a value in 1..12, so `00` and `13` are rejected |
| Dates.DayField | src/date.rs:48-53 | the day is read exactly when its two characters are digits with a value in 1..31, so `00` and `32` are rejected |
| Dates.DoParseSteps | src/date.rs:28-35 | a successful read has a year, a dash at position 4, a month, a dash at position 7 and a day |
| Dates.ParseSpec | src/date.rs:10-35 | `parse` accepts exactly the ten-character `YYYY-MM-DD` texts with month 1..12 and day 1..31 (no calendar check), the fields are the numbers written, and the error is recoverable exactly when the date shape is missing |
| ParserDates.Field | src/parser/date.rs:24-34 | never fails for good; a success is a number within the range asked for |
| ParserDates.ParseDate | src/parser/date.rs:10-22 | never fails for good; success consumes input |
| ParserDates.FieldOfDigits | src/parser/date.rs:24-34 | a maximal digit run is read exactly when its value fits the integer type and lies in range, and then as that value |
| ParserDates.ParseDateOfText | src/parser/date.rs:10-34 | three digit runs separated by `-` make a date exactly when the year is 1..65535, the month 1..12 and the day 1..31, and the date holds the numbers written |
| ParserDates.ParseDateNeedsDigit | src/parser/date.rs:24-26 | input that does not start with a digit, such as `hello`, is a recoverable error |
| Accounts.TypeName | src/account.rs:57-61 | each type displays as a non-empty alphanumeric name |
| Accounts.ParseType | src/account.rs:113-121 | never fails for good; success consumes the name read |
| Accounts.MoreComponents | src/account.rs:104-107 | the components after the first always succeed and never grow the input |
| Accounts.Components | src/account.rs:104-107 | never fails for good; success yields at least one component |
| Accounts.ParseAccount | src/account.rs:99-111 | never fails for good; success consumes input |
| Accounts.Display | src/account.rs:32-40 | the loop writing the type and then `:` and each component produces exactly the displayed form `Format` |
| Accounts.TypeNameRoundTrip | src/account.rs:57-121 | each type reads back from its own displayed name |
| Accounts.MoreComponentsShape | src/account.rs:104-107 | what the component list consumed is the displayed form of the components it returned, each of them valid |
| Accounts.MoreComponentsRoundTrip | src/account.rs:104-107 | valid components joined by `:` read back as the same list, in order |
| Accounts.ComponentsRoundTrip | src/account.rs:104-107 | the first component and the joined others read back as the whole list |
| Accounts.ComponentsShape | src/account.rs:104-107 | what `separated_list1` consumed, written back, is the components joined by `:` |
| Accounts.FormatRoundTrip | src/account.rs:32-121 | displaying a valid account and parsing the text gives back the same type and components, in order |
| Accounts.ParseThenFormat | src/account.rs:32-121 | parsing then displaying reproduces the consumed text exactly, and the account read is valid |
| Accounts.AccountStart | src/account.rs:113-121 | an account starts with the uppercase initial of its root name |
| Accounts.EmptyPathRejected | src/account.rs:104-107 | a root name followed by `:` and no component, such as `Assets:`, is rejected |
| Currencies.Parse | src/currency.rs:19-36 | never fails for good; success needs an uppercase first character |
| Currencies.ParseShape | src/currency.rs:19-36 | what is accepted is a well-formed code (uppercase first, allowed tail, empty tail or uppercase last) equal to the text consumed, and the run taken is maximal |
| Currencies.ParseCurrency | src/currency.rs:14-36 | a well-formed code followed by text that cannot extend it reads back as exactly that text |
| Currencies.LongestRunDecides | src/currency.rs:23-33 | when the longest run ends in anything but an uppercase letter the scan fails, even if a shorter prefix would be valid |
| Currencies.NeedsUppercaseStart | src/currency.rs:21 | a code must start with an uppercase letter, so `1SD` and `-US` fail |
| AmountParser.Value | src/amount.rs:44-49 | never fails for good; success consumes the run of number characters |
| AmountParser.Currency | src/amount.rs:58-69 | never fails for good; success is a well-formed currency code |
| AmountParser.Parse | src/amount.rs:37-42 | never fails for good; success has a well-formed currency, consumes input and starts at a number character |
| AmountParser.ParsePrice | src/amount.rs:51-56 | never fails for good; success has a well-formed currency |
| AmountParser.ValueOf | src/amount.rs:44-49 | a maximal run of number characters that the decimal type accepts is read with that value |
| AmountParser.ValueRejectsTwoDots | src/amount.rs:44-49 | the whole run must be a decimal, so `10..2` is rejected rather than cut back |
| AmountParser.ParseOf | src/amount.rs:37-42 | a number, blanks and a currency code read back as that amount, leaving what follows |
| AmountParser.ParseNeedsBlank | src/amount.rs:39 | a number not followed by a blank is not an amount, so `10CHF` is rejected |
| AmountParser.ParsePriceOf | src/amount.rs:51-56 | a code, blanks and an amount read back as that price |
| Decimals.FracValue | src/amount/expression.rs:293-309 | the value of fraction digits lies in [0, 1) |
| Decimals.FromStr | src/amount.rs:47 | a text accepted by the decimal type is non-empty and made of digits, `.` and `-`; a run of digits is read as the number it denotes |
| Decimals.Unsigned | src/amount.rs:47 | an accepted unsigned text is non-empty and made of digits and `.`; a run of digits is read as the number it denotes |
| Decimals.FromStrDecimalText | src/amount.rs:47 | every text written as an optional `-`, digits, an optional `.` and digits, with at least one digit, reads back as the number it denotes |
| Decimals.FromStrNeedsDigit | src/amount.rs:47 | a text with no digit is never a decimal |
| Decimals.FromStrTwoDots | src/amount.rs:47 | a text with two dots is never a decimal |
| Decimals.Div | src/amount/expression.rs:179-186 | a quotient by a non-zero divisor multiplies back to the dividend |
| ExprAmount.Currency | src/amount/mod.rs:57-59 | succeeds exactly when the input starts with an ASCII uppercase letter, and then takes the maximal non-empty run of them |
| ExprAmount.ParseAmount | src/amount/mod.rs:47-55 | never fails for good; success has a non-empty uppercase currency and consumes input |
| ExprAmount.ParseAmountOf | src/amount/mod.rs:47-55 | an expression, blanks and a currency code read back as an amount that stores the expression itself, not its value |
| ExprAmount.Value | src/amount/mod.rs:34-38 | the value of an amount is its expression evaluated; what that is for an amount read from text is stated by the two rows below |
| ExprAmount.ValueOfLiteral | src/amount/mod.rs:34-38 | `value()` of an amount read from a literal, blanks and a currency is the decimal the literal denotes (a `+` dropped, a `-` negating, the fraction counted), with that currency and the rest left unread |
| ExprAmount.ValueOfPrinted | src/amount/mod.rs:34-38 | `value()` of an amount read from any printed expression, blanks and a currency is that expression's arithmetic value, whatever its nesting |
| ExprAmount.AmountStep | src/amount/mod.rs:47-55 | the amount is the expression read, then the currency read after the blanks |
| ExprAmount.LowercaseCurrencyRejected | src/amount/mod.rs:57-59 | a lowercase currency, as in `10 chf`, is rejected |
| AmountExpression.LiteralLength | src/amount/expression.rs:294-299 | the literal scanner always succeeds and never takes more than the input |
| AmountExpression.ParseValue | src/amount/expression.rs:293-309 | never fails for good; success consumes input |
| AmountExpression.MulOperator | src/amount/expression.rs:266-269 | reads exactly one character, and only `*` (Multiply) or `/` (Divide) |
| AmountExpression.AddOperator | src/amount/expression.rs:280-283 | reads exactly one character, and only `+` (Add) or `-` (Subtract) |
| AmountExpression.P0 | src/amount/expression.rs:254-263 | never fails for good; success consumes input |
| AmountExpression.P1Tail | src/amount/expression.rs:273 | the `many0` loop always succeeds and never grows the input |
| AmountExpression.P1 | src/amount/expression.rs:265-277 | never fails for good; success consumes input |
| AmountExpression.P2Tail | src/amount/expression.rs:287 | the `many0` loop always succeeds and never grows the input |
| AmountExpression.P2 | src/amount/expression.rs:279-291 | never fails for good; success consumes input |
| AmountExpression.Parse | src/amount/expression.rs:250-252 | never fails for good; success consumes input |
| AmountExpression.ApplyInverses | src/amount/expression.rs:178-186 | each operator means its arithmetic: subtracting undoes adding, and dividing by a non-zero number undoes multiplying by it |
| AmountExpression.FromIter | src/amount/expression.rs:82-86 | with no pair the first operand is the whole expression; otherwise the root carries the last operator and the last operand |
| AmountExpression.FromIterSnoc | src/amount/expression.rs:82-86 | folding is left-associative: the last pair folded is the root and everything before it is its left operand |
| AmountExpression.EvaluateFromIter | src/amount/expression.rs:82-127 | evaluating a folded chain applies the operators left to right to the operand values |
| AmountExpression.EvaluateTerm | src/amount/expression.rs:116-127 | evaluating the expression read from a term gives the term's arithmetic value: a leaf is its number, an operation its operator applied to its operands' values |
| AmountExpression.LiteralLengthOf | src/amount/expression.rs:294-299 | the literal scanner takes exactly the sign, the integer digits and, when present, the dot with the fraction digits |
| AmountExpression.ParseValueOfLiteral | src/amount/expression.rs:293-309 | a literal with at least one digit reads as the number it denotes; a leading `+` is dropped and a leading `-` negates, so `42.`, `.1` and `-.1` are accepted |
| AmountExpression.ValueOfPrefix | src/amount/expression.rs:300-308 | the scanned literal, with a leading `+` removed, is what is handed to the decimal type |
| AmountExpression.SignStripped | src/amount/expression.rs:302-304 | stripping `+` drops a plus sign and keeps a minus sign |
| AmountExpression.ParseValueNeedsDigit | src/amount/expression.rs:300-306 | a literal scan that takes no digit, as on empty input, `-` or `.`, fails |
| AmountExpression.NotAnExpression | src/amount/expression.rs:250-263 | text that begins with neither a literal character nor `(` is not an expression |
| AmountExpression.TailsStop | src/amount/expression.rs:273-287 | both operator loops end before `)` or the end of the expression, consuming nothing |
| AmountExpression.P1Unfold | src/amount/expression.rs:265-277 | a term is its first operand folded with the `*`/`/` pairs that follow |
| AmountExpression.P2Unfold | src/amount/expression.rs:279-291 | an expression is its first term folded with the `+`/`-` pairs that follow |
| AmountExpression.OperatorOf | src/amount/expression.rs:266-283 | each operator character is read back as its operator, by the parser of its own level only |
| AmountExpression.MulStep | src/amount/expression.rs:273 | a `*` or `/` pair with blanks around the operator is taken by the loop of `exp_p1` |
| AmountExpression.AddSkipsMul | src/amount/expression.rs:273 | a `+` or `-` pair is left alone by the loop of `exp_p1` |
| AmountExpression.AddStep | src/amount/expression.rs:287 | a `+` or `-` pair is taken by the loop of `exp_p2` |
| AmountExpression.MulSkipsAdd | src/amount/expression.rs:287 | a `*` or `/` pair is left alone by the loop of `exp_p2` |
| AmountExpression.P0OfValue | src/amount/expression.rs:261 | without an opening parenthesis an operand is a literal |
| AmountExpression.ParseValueOfDigits | src/amount/expression.rs:293-309 | a run of digits alone reads as its natural number |
| AmountExpression.P0OfLit | src/amount/expression.rs:261 | a natural number literal is a whole operand |
| AmountExpression.P0OfParen | src/amount/expression.rs:256-260 | a parenthesised expression is a whole operand, the closing parenthesis consumed |
| AmountExpression.P2OfPair | src/amount/expression.rs:265-291 | operand, operator, operand, then `)` give one operation whatever the operator's level |
| AmountExpression.P0Print | src/amount/expression.rs:254-263 | every printed term, parenthesised, reads back as a whole operand |
| AmountExpression.ParsePrint | src/amount/expression.rs:250-309 | printing and parsing are inverse: any printed term, with or without blanks around the operators, parses back to that term and the parse stops where it ends |
| AmountExpression.ParseLiteral | src/amount/expression.rs:293-309 | a literal followed by what ends an expression is a whole expression, the leaf holding the decimal the literal denotes |
| AmountExpression.ThreeOperands | src/amount/expression.rs:265-291 | three operands and two operators group as precedence and left associativity dictate |
| AmountExpression.MulThenMul | src/amount/expression.rs:265-291 | `a op1 b op2 c` with both operators `*`/`/` groups to the left |
| AmountExpression.MulThenAdd | src/amount/expression.rs:265-291 | `a * b + c` groups the tighter operator first, on the left |
| AmountExpression.AddThenMul | src/amount/expression.rs:265-291 | `a + b * c` groups the tighter operator first, on the right |
| AmountExpression.AddThenAdd | src/amount/expression.rs:265-291 | `a - b - c` groups to the left |
| AmountExpression.Precedence | src/amount/expression.rs:265-291 | for any three printed operands, `*` and `/` bind tighter than `+` and `-`, and operators of one level associate to the left |
| RightExpression.ParseOperator | src/expression.rs:38-45 | succeeds exactly on `/`, `*`, `+`, `-`, reads one character and maps it to Divide, Multiply, Add, Minus |
| RightExpression.LiteralLength | src/expression.rs:64-71 | the literal scanner always succeeds and never takes more than the input |
| RightExpression.ParseValue | src/expression.rs:64-71 | never fails for good; success consumes input |
| RightExpression.Expr | src/expression.rs:34-36 | never fails for good; success consumes input |
| RightExpression.ParseOperation | src/expression.rs:47-62 | never fails for good; success consumes input and has a literal as its left operand |
| RightExpression.ValueOfNat | src/expression.rs:64-71 | a run of digits reads as the number it denotes |
| RightExpression.ExprOfValue | src/expression.rs:34-36 | a literal not followed by an operator is an expression on its own |
| RightExpression.ExprOfOperation | src/expression.rs:34-62 | a literal, an operator and an expression make an operation, tried before the bare value, whose right operand is that whole expression |
| RightExpression.ParseChain | src/expression.rs:34-62 | chains of any length nest to the right with no precedence: `1 * 2 + 3` is `1 * (2 + 3)` |
| RightExpression.PlusRejected | src/expression.rs:64-71 | a leading `+` is not part of a literal, so the input is not an expression |
| RightExpression.DotNeedsDigit | src/expression.rs:68 | a `.` belongs to the literal only when a digit follows it: `1.` reads `1` and leaves the dot |
| RightExpression.LiteralOfNat | src/expression.rs:64-71 | the digits of a number, when the literal ends after them, read as that number |
| RightExpression.ValueOfDecimal | src/expression.rs:64-71 | every literal the grammar accepts (optional '-', digits, an optional '.' with at least one digit after it) reads back as the signed decimal it denotes, leaving the following text |
| RightExpression.LengthOfDecimal | src/expression.rs:65-69 | the recognized literal ends exactly where such a literal ends when the next character cannot extend it |
| DivisionAmount.ParseOperator | src/parser/amount.rs:19-21 | succeeds exactly on `/`, reading one character |
| DivisionAmount.Operation | src/parser/amount.rs:9-17 | never fails for good; success consumes input |
| DivisionAmount.OperationOf | src/parser/amount.rs:9-17 | the value of an operation is the quotient of its two literals |
| DivisionAmount.QuotientOf | src/parser/amount.rs:9-17 | `n / m`, with any blanks around the slash, is the quotient of the two numbers |
| DivisionAmount.ThreeHalves | src/parser/amount.rs:9-17 | `3 / 2` is 1.5 |
| DivisionAmount.OtherOperatorRejected | src/parser/amount.rs:19-21 | any character other than `/` between the literals is rejected |
| AmountSum.Added | src/amount/sum.rs:31-40 | adding an amount raises only its currency's total by its value, or inserts that currency with the value; no other entry changes and no other key appears |
| AmountSum.TotalSnoc | src/amount/sum.rs:59-63 | the reference total of a currency grows by an appended amount's value only when the currency matches |
| AmountSum.FoldIsTotals | src/amount/sum.rs:59-63 | folding from empty yields one entry per currency that occurs, holding the sum of that currency's values, and no other entry |
| AmountSum.TotalAbsent | src/amount/sum.rs:59-63 | a currency that does not occur totals zero |
| AmountSum.AddSameCurrency | src/amount/sum.rs:51-57 | two amounts in one currency give one entry holding their sum |
| AmountSum.AddDifferentCurrencies | src/amount/sum.rs:51-57 | two amounts in different currencies give two entries, one for each |
| AmountSum.Entries | src/amount/sum.rs:17-23 | one amount per currency: each total appears as exactly one amount of that currency whose expression is the plain total, and no other amount appears |
| AmountSum.Amounts.constructor | src/amount/sum.rs:13-15 | `Default` has no entry |
| AmountSum.Amounts.AddAssign | src/amount/sum.rs:31-40 | the totals become exactly `Added` of the old totals and the amount |
| AmountSum.Amounts.Add | src/amount/sum.rs:42-49 | adds in place and returns the same accumulator |
| AmountSum.FromAmount | src/amount/sum.rs:25-29 | a fresh accumulator holding just the amount's currency with its value |
| AmountSum.AddAmounts | src/amount/sum.rs:51-57 | a fresh accumulator with both amounts added, in order |
| AmountSum.Sum | src/amount/sum.rs:59-63 | the fold from empty yields, for each currency that occurs and no other, the sum of that currency's values |
| Metadata.Key | src/metadata.rs:31-34 | never fails for good; a key read starts with a lowercase letter and continues with alphanumerics, `-` and `_` |
| Metadata.ParseValue | src/metadata.rs:37-40 | never fails for good; a quoted string is tried first, then a number |
| Metadata.Entry | src/metadata.rs:29-43 | never fails for good; success consumes input |
| Metadata.Entries | src/metadata.rs:22-26 | the entries read in order, and a stopping point that is a suffix of the input where no entry can be read |
| Metadata.Parse | src/metadata.rs:22-27 | always succeeds, never grows the input, and stops at the first line that is not an entry |
| Metadata.CollectKeys | src/metadata.rs:24 | the map holds exactly the keys read |
| Metadata.LastWins | src/metadata.rs:24 | for a repeated key the map holds the value of the key's last entry |
| Metadata.NoEntry | src/metadata.rs:22-27 | a line that is not an entry ends the metadata without being consumed, giving an empty map |
| Metadata.NeedsIndent | src/metadata.rs:30 | an entry line must begin with a blank, so an unindented line gives no metadata |
| Metadata.EntryOf | src/metadata.rs:29-43 | blanks, a key, `:`, blanks, a value and a line end read as that key and value, leaving the next line |
| Metadata.StringValueOf | src/metadata.rs:38 | a quoted value is a string value |
| Metadata.NumberValueOf | src/metadata.rs:39 | any other value is read as an expression and stored as its evaluated number |
| Metadata.UppercaseKeyRejected | src/metadata.rs:32 | a key must start with a lowercase letter, so `Key: "v"` is not an entry |
| TransactionFlag.ParseFlag | src/transaction/mod.rs:172-177 | succeeds exactly on `*` or `!`, reading one character; `*` is Cleared and `!` Pending, and writing the flag gives back that character |
| TransactionFlag.FlagRoundTrip | src/transaction/mod.rs:172-177 | writing a flag and reading it back gives the same flag |
| LibTransaction.ParseFlag | src/transaction.rs:141-146 | succeeds exactly on `*` or `!`, reading one character; `*` is Completed, `!` Incomplete, and `From<Flag> for char` maps each back to that character |
| LibTransaction.FlagRoundTrip | src/transaction.rs:125-146 | converting a flag to its character and reading it back gives the same flag |
| LibTransaction.HeaderFlag | src/transaction.rs:137 | never fails for good; a flag comes from `flag`, and no flag from the keyword `txn` |
| LibTransaction.TxnHasNoFlag | src/transaction.rs:137 | `txn` means a transaction without a flag |
| LibTransaction.ParseTag | src/transaction.rs:173-181 | succeeds exactly on `#`, and then takes the longest run of alphanumerics, `-` and `_`, which may be empty |
| LibTransaction.TagList | src/transaction.rs:184-186 | the tags read never grow the input |
| LibTransaction.Tags | src/transaction.rs:183-188 | always succeeds and never grows the input |
| LibTransaction.TagListOf | src/transaction.rs:184-186 | written tags are read back in order, stopping before what cannot start a tag |
| LibTransaction.TagsOf | src/transaction.rs:183-188 | the tags of a header form the set of the names written, a repeated tag counted once |
| LibTransaction.PayeeAndNarration | src/transaction.rs:190-200 | never fails for good; with no payee there is still a narration |
| LibTransaction.NarrationOnly | src/transaction.rs:190-200 | a single string is the narration and there is no payee |
| LibTransaction.PayeeThenNarration | src/transaction.rs:190-200 | two strings are the payee, then the narration |
| LibTransaction.Comma | src/transaction.rs:246 | never fails for good; success consumes input |
| LibTransaction.ParseDate | src/transaction.rs:247 | is the date parser, and success consumes input |
| LibTransaction.AmountThenDate | src/transaction.rs:243-250 | success consumes input |
| LibTransaction.DateThenAmount | src/transaction.rs:251-258 | success consumes input, and it fails for good exactly when the date does |
| LibTransaction.CostBody | src/transaction.rs:242-262 | the alternatives never all miss (the last one always matches), and success never grows the input |
| LibTransaction.ParseCost | src/transaction.rs:240-265 | success needs a `{` and consumes input |
| LibTransaction.EmptyCost | src/transaction.rs:261-264 | `{}` and `{ }` give a cost with neither amount nor date |
| LibTransaction.BracesOf | src/transaction.rs:240-265 | the cost is what the body read, inside `{`, blanks, blanks and `}` |
| LibTransaction.AmountCost | src/transaction.rs:259 | an amount alone in the braces gives a cost with that amount and no date |
| LibTransaction.DateCost | src/transaction.rs:260 | a date alone in the braces gives a cost with that date and no amount |
| LibTransaction.NoPair | src/transaction.rs:242-262 | when neither pair matches, the body is a single amount, a single date or nothing |
| LibTransaction.AmountDateCost | src/transaction.rs:243-250 | an amount, a comma and a date give a cost with both |
| LibTransaction.DateAmountCost | src/transaction.rs:251-258 | a date, a comma and an amount give a cost with both |
| LibTransaction.DateNotAmount | src/transaction.rs:259-260 | a date is not an amount, since its run of number characters has a `-` that the decimal type rejects |
| LibTransaction.PricedBy | src/transaction.rs:213-217 | never fails for good; success consumes the marker |
| LibTransaction.ParsePrice | src/transaction.rs:211-220 | never fails for good; success consumes input |
| LibTransaction.UnitPriceOf | src/transaction.rs:213-214 | `@`, blanks and an amount are a unit price |
| LibTransaction.TotalPriceOf | src/transaction.rs:217-218 | `@@`, blanks and an amount are a total price |
| LibTransaction.PriceNeedsBlank | src/transaction.rs:213 | without a blank after `@` there is no price |
| LibTransaction.OptionalCost | src/transaction.rs:208 | never misses; an absent cost reads nothing, and a cost that fails for good fails the posting |
| LibTransaction.OptionalPrice | src/transaction.rs:209-221 | an absent price reads nothing, and a price read never grows the input |
| LibTransaction.Amounts | src/transaction.rs:206-222 | success consumes input; what it reads is fixed by the lemmas below |
| LibTransaction.CostBehind | src/transaction.rs:208 | blanks and a cost give that cost and what follows it |
| LibTransaction.NoCostBehind | src/transaction.rs:208 | without a `{` after the blanks there is no cost and nothing is read |
| LibTransaction.NoCostBeforePrice | src/transaction.rs:208-213 | blanks and `@` are no cost, so the price after an amount is still read |
| LibTransaction.PriceBehind | src/transaction.rs:209-221 | blanks and a price give that price and what follows it |
| LibTransaction.NoPriceBehind | src/transaction.rs:209-221 | where no price follows the blanks there is none and nothing is read |
| LibTransaction.AmountsOf | src/transaction.rs:206-222 | blanks, an amount, blanks, a cost, blanks and a price read as exactly that amount, cost and price |
| LibTransaction.AmountAndPrice | src/transaction.rs:206-222 | blanks, an amount, blanks and a price read as that amount and price with no cost |
| LibTransaction.AmountAlone | src/transaction.rs:206-222 | blanks and an amount not followed by a blank read as that amount with neither cost nor price |
| LibTransaction.PostingFrom | src/transaction.rs:205-237 | success keeps the flag given, and a posting without an amount has neither cost nor price; its content is fixed by the lemmas below |
| LibTransaction.PostingOf | src/transaction.rs:205-237 | an account, then amounts read as an amount, cost and price, then a line ending, give the posting with that flag, account, amount, cost and price |
| LibTransaction.AccountPostingOf | src/transaction.rs:224-227 | an account followed by no amount and a line ending gives the posting with that account and no amount, cost or price |
| LibTransaction.UnflaggedPosting | src/transaction.rs:203-204 | blanks followed by neither a blank nor a flag character start a posting without a flag, read from that text |
| LibTransaction.PostingWithCostAndUnitPrice | src/transaction.rs:58-84 | a line `  Assets:Cash 1 CHF {2 PLN} @ 3 EUR` is the posting with that account and amount, the cost amount and no cost date, and that unit price |
| LibTransaction.ParsePosting | src/transaction.rs:202-238 | success needs a leading blank and consumes input |
| LibTransaction.PostingFlag | src/transaction.rs:204 | a flag followed by a blank is the posting's flag |
| LibTransaction.PostingFlagNeedsBlank | src/transaction.rs:204 | a flag not followed by a blank is not a flag: the account scanner is handed the flag character |
| LibTransaction.PriceNeedsAmount | src/transaction.rs:206-222 | a price is read only after an amount, so an account followed by `@` is not a posting |
| LibTransaction.Postings | src/transaction.rs:156 | never misses; a posting that fails for good fails the list; the list stops where no posting can be read, empty when none starts the input, and otherwise begins with the first posting read and continues with the postings after it |
| LibTransaction.DoParse | src/transaction.rs:148-171 | success keeps the flag read and never grows the input; its content is fixed by the lemmas below |
| LibTransaction.DoParseOf | src/transaction.rs:148-171 | blanks, a description, tags, a line ending, metadata and postings give the transaction with that flag, payee, narration, tag set and posting list, and that metadata |
| LibTransaction.DoParseWithoutDescription | src/transaction.rs:152-163 | where no description follows the blanks, the transaction has neither payee nor narration and keeps the tags, postings and metadata read |
| LibTransaction.WrittenTransaction | src/transaction.rs:20-41 | a header written as `"payee" "narration" #tag …` and a line ending, then metadata and postings, gives that payee, that narration, the set of tag names written and those postings |
| LibTransaction.Parse | src/transaction.rs:134-139 | the error is recoverable exactly when neither a flag nor `txn` starts the text; success consumes input and carries that flag |
| LibTransaction.ParseOf | src/transaction.rs:134-139 | `*`, `!` or `txn` followed by any text reads as that flag (none for `txn`) and then the body, committed |
| LibTransaction.CommittedAfterFlag | src/transaction.rs:137-138 | once a flag starts the text, any later mismatch is a committed failure |
| TransactionPostings.ParseAttribute | src/transaction/posting.rs:185-189 | an amount, else a date, else a quoted label; never fails for good, and success consumes input |
| TransactionPostings.Separator | src/transaction/posting.rs:184 | blanks, a comma, blanks; never fails for good, and success consumes input |
| TransactionPostings.SeparatedMore | src/transaction/posting.rs:183-190 | the items after the first never grow the input |
| TransactionPostings.SeparatedList | src/transaction/posting.rs:183-190 | `separated_list0` never grows the input, and an empty list consumes nothing |
| TransactionPostings.SeparatorOf | src/transaction/posting.rs:184 | `, ` before a non-blank is a separator that leaves exactly what follows the blanks |
| TransactionPostings.SeparatedMoreOf | src/transaction/posting.rs:183-190 | after the first item, `, ` and each further written item read back as exactly those items, stopping where no separator follows |
| TransactionPostings.SeparatedListOf | src/transaction/posting.rs:183-190 | a comma list written with `, ` reads back as exactly its items in order, and the rest after the list is left in the input |
| TransactionPostings.ParseLotAttributes | src/transaction/posting.rs:182-216 | always succeeds and never grows the input |
| TransactionPostings.ParseLot | src/transaction/posting.rs:226-230 | never fails for good, and success consumes input |
| TransactionPostings.PriceKind | src/transaction/posting.rs:248-251 | succeeds exactly on a leading `@`; the price is total exactly when a second `@` follows, and one or two characters are consumed accordingly |
| TransactionPostings.ParsePrice | src/transaction/posting.rs:246-255 | never fails for good, and success consumes input |
| TransactionPostings.LeadingFlag | src/transaction/posting.rs:221 | never grows the input, and without a flag consumes nothing |
| TransactionPostings.OptionalAmount | src/transaction/posting.rs:223 | never grows the input, and without an amount consumes nothing |
| TransactionPostings.OptionalLot | src/transaction/posting.rs:224-231 | never grows the input, and without a lot consumes nothing |
| TransactionPostings.OptionalPrice | src/transaction/posting.rs:232 | never grows the input, and without a price consumes nothing |
| TransactionPostings.OptionalComment | src/transaction/posting.rs:233 | never grows the input, and without a comment consumes nothing |
| TransactionPostings.PostingAfterFlag | src/transaction/posting.rs:222-242 | never fails for good; success consumes input and keeps the flag read before |
| TransactionPostings.ParsePosting | src/transaction/posting.rs:218-244 | never fails for good, and success consumes input |
| TransactionPostings.LastOfKindWins | src/transaction/posting.rs:194-214 | when several attributes of one kind are given, the lot records the last of them |
| TransactionPostings.AbsentKindUnset | src/transaction/posting.rs:194-214 | a kind of attribute that is never given stays unset in the lot |
| TransactionPostings.LastOfEachKind | src/transaction/posting.rs:194-214 | every attribute not followed by another of its kind is the one the lot records |
| TransactionPostings.LotOf | src/transaction/posting.rs:182-231 | `{`, blanks, a written comma list of attributes, blanks and `}` give the fold of exactly those attributes in order, recording the last of each kind, with the rest after `}` |
| TransactionPostings.LotFrame | src/transaction/posting.rs:226-230 | blanks around the attributes inside the braces are skipped and the closing `}` consumed |
| TransactionPostings.EmptyLot | src/transaction/posting.rs:182-231 | `{}` with only blanks inside is a lot with no cost, date or label |
| TransactionPostings.EmptyLotNoCost | src/transaction/posting.rs:79-81 | a posting whose lot has no attribute has no cost |
| TransactionPostings.TotalPriceOf | src/transaction/posting.rs:246-255 | `@@`, blanks and an amount give a total price of that amount |
| TransactionPostings.UnitPriceOf | src/transaction/posting.rs:246-255 | `@`, blanks and an amount give a per-unit price of that amount |
| TransactionPostings.PriceNeedsBlank | src/transaction/posting.rs:252 | `@` or `@@` directly followed by anything but a blank is no price |
| TransactionPostings.PostingStart | src/transaction/posting.rs:221-222 | a posting starts with a flag or with the capital initial of its account |
| TransactionPostings.EmptyNotPosting | src/transaction/posting.rs:218-244 | empty input is not a posting |
| TransactionPostings.FlagNeedsBlank | src/transaction/posting.rs:221-222 | a flag directly followed by anything but a blank rejects the posting |
| TransactionPostings.FlaggedPosting | src/transaction/posting.rs:221 | a flag and blanks are skipped and the flag kept on the rest of the posting |
| TransactionPostings.AccountOnly | src/transaction/posting.rs:222-233 | an account followed by neither a blank nor a comment is a posting of that account with nothing else |
| TransactionPostings.AmountBehind | src/transaction/posting.rs:223 | blanks and an amount give that amount and the rest after it |
| TransactionPostings.LotBehind | src/transaction/posting.rs:224-231 | blanks and a lot give that lot and the rest after it |
| TransactionPostings.PriceBehind | src/transaction/posting.rs:232 | blanks and a price give that price and the rest after it |
| TransactionPostings.PostingOfParts | src/transaction/posting.rs:218-244 | an account followed, each behind blanks, by an amount, a lot and a price, then a comment part, is the posting with exactly those parts and the flag read before |
| TransactionPostings.PostingWithLotAndUnitPrice | src/transaction/posting.rs:218-244 | account, amount, `{attributes}` and `@ price`, each behind blanks, give the posting with that amount, the per-unit price and the lot folded from the attributes, with no comment |
| TransactionPostings.CommentOf | src/transaction/posting.rs:233 | a comment after blanks is kept trimmed, and its line ending is left in the input |
| TransactionPostings.AccountThenComment | src/transaction/posting.rs:222-243 | an account, blanks and a comment make a posting with no amount, lot or price and the trimmed comment |
| TransactionPostings.NoPartsBeforeComment | src/transaction/posting.rs:223-232 | blanks before a `;` are taken for no amount, lot or price |
| Transactions.AppendTags | src/transaction/mod.rs:125-127 | the given tags follow the existing ones in order, and nothing else of the transaction changes |
| Transactions.AppendTagsTwice | src/transaction/mod.rs:125-127 | appending two lists one after the other is appending their concatenation |
| Transactions.ParseTag | src/transaction/mod.rs:165-170 | succeeds exactly on `#`; the tag read is the longest run free of whitespace and `#`, and tag and remainder rebuild the input |
| Transactions.TagOf | src/transaction/mod.rs:165-170 | a written tag followed by whitespace, `#` or the end is read back |
| Transactions.Tags | src/transaction/mod.rs:141 | never grows the input |
| Transactions.TagsRoundTrip | src/transaction/mod.rs:141 | tags written one after another, each behind a blank, are read back in order |
| Transactions.OneTag | src/transaction/mod.rs:141 | a blank and a tag put that tag in front of the tags that follow |
| Transactions.Description | src/transaction/mod.rs:131-134 | never fails for good; succeeds exactly when a quoted string starts the input, and then consumes input |
| Transactions.NarrationOnly | src/transaction/mod.rs:133 | one quoted string not followed by another is the narration, with no payee |
| Transactions.PayeeThenNarration | src/transaction/mod.rs:132 | two quoted strings separated by blanks are the payee, then the narration |
| Transactions.Header | src/transaction/mod.rs:138-139 | never fails for good; success consumes input and holds the date read at the start |
| Transactions.Keyword | src/transaction/mod.rs:138-139 | never fails for good; success consumes input and keeps the date |
| Transactions.HeaderTxn | src/transaction/mod.rs:139 | after the date and blanks, `txn` is a transaction without a flag |
| Transactions.HeaderFlag | src/transaction/mod.rs:139 | after the date and blanks, `*` or `!` gives that flag |
| Transactions.HeaderNeither | src/transaction/mod.rs:138-139 | after the date and blanks, anything but `txn` or a flag is not a transaction, and the parser is not committed |
| Transactions.FlagIsNotTxn | src/transaction/mod.rs:139 | the two alternatives of the keyword exclude each other |
| Transactions.FlagOfHeader | src/transaction/mod.rs:139 | the flag character written in the header is the flag read |
| Transactions.PostingLines | src/transaction/mod.rs:143 | never grows the input |
| Transactions.PostingLine | src/transaction/mod.rs:143 | a line ending, an indentation and a posting add that posting in front of those of the following lines |
| Transactions.UnindentedLine | src/transaction/mod.rs:143 | a line that is not indented ends the postings, and nothing is consumed |
| Transactions.Trailer | src/transaction/mod.rs:141-145 | never misses without committing: once reached it succeeds or fails for good, and never grows the input |
| Transactions.OptionalDescription | src/transaction/mod.rs:140 | never grows the input, and without a description consumes nothing |
| Transactions.ParseTransaction | src/transaction/mod.rs:130-163 | misses exactly when the header does; success consumes input, keeps the header's date and flag, and a payee comes only with a narration |
| Transactions.Body | src/transaction/mod.rs:140-162 | once the header is read the parser is committed: it succeeds or fails for good, keeps the header, and a payee comes only with a narration |
| Transactions.HeaderThenBody | src/transaction/mod.rs:135-146 | a transaction whose header is read is its header followed by its body |
| Transactions.JunkReadsNothing | src/transaction/mod.rs:141-145 | text that starts no tag, comment, posting line or line ending is read as none of them |
| Transactions.JunkAfterHeader | src/transaction/mod.rs:145 | junk right after the header is a committed failure |
| Transactions.QuoteAfterFlag | src/transaction/mod.rs:286 | a description written right after the flag with no blank (`*"hello"`) is a committed failure |
| Transactions.JunkAfterDescription | src/transaction/mod.rs:145 | junk after the description, such as a posting on the header line, is a committed failure |
| Transactions.FailingTrailer | src/transaction/mod.rs:145 | when what follows the description fails, the transaction fails for good |
| Transactions.TrailerTags | src/transaction/mod.rs:141-145 | tags at the end of the header line are kept in order, with no comment and no posting |
| Transactions.NoCommentAtEnd | src/transaction/mod.rs:142 | at the end of the line there is no comment |
| Transactions.NoPostingAtEnd | src/transaction/mod.rs:143 | where no indented line follows there is no posting |
| Transactions.TrailerComment | src/transaction/mod.rs:142-145 | a comment closing the header line is kept trimmed |
| Transactions.HeaderLineOnly | src/transaction/mod.rs:130-163 | a header line with a flag and a narration alone is a transaction with that date, flag and narration and nothing else |
| Transactions.NarrationLine | src/transaction/mod.rs:140-162 | after the header, blanks, a narration and the end of the line give a transaction with that narration and nothing else |
| Transactions.EmptyTrailer | src/transaction/mod.rs:141-145 | nothing but the end of the line gives no tags, no comment and no postings |
| Balanced.Balance | src/transaction/balanced.rs:19-32 | gives nothing exactly when some posting has no amount; otherwise the same information and, in order, each posting with its amount unwrapped |
| Balanced.BalanceEmpty | src/transaction/balanced.rs:44-48 | a transaction without postings balances to one without postings |
| EarlyPostings.PriceKind | src/transacion/posting.rs:68-71 | succeeds exactly on a leading `@`; the price is a total cost exactly when a second `@` follows, and one or two characters are consumed accordingly |
| EarlyPostings.ParsePrice | src/transacion/posting.rs:66-75 | never fails for good, and success consumes input |
| EarlyPostings.OptionalPrice | src/transacion/posting.rs:55 | never grows the input, and without a price consumes nothing |
| EarlyPostings.ParsePosting | src/transacion/posting.rs:49-64 | never fails for good, and success consumes input |
| EarlyPostings.PriceOf | src/transacion/posting.rs:66-75 | `@@`, blanks and an amount are a total cost of that amount; `@`, blanks and an amount a unit price |
| EarlyPostings.PriceNeedsBlank | src/transacion/posting.rs:72 | `@` or `@@` directly followed by anything but a blank is no price |
| EarlyPostings.PostingStart | src/transacion/posting.rs:52-53 | a posting starts with a flag or with the capital initial of its account, so empty input is none |
| EarlyPostings.FlagNeedsBlank | src/transacion/posting.rs:52-53 | a flag directly followed by anything but a blank rejects the posting |
| EarlyPostings.AccountOnly | src/transacion/posting.rs:53-55 | the amount is optional: an account not followed by a blank is a posting of that account alone |
| EarlyPostings.AmountThenPrice | src/transacion/posting.rs:53-55 | an account, blanks, an amount and a price make a posting with that amount and price |
| EarlyTransactions.ParseFlag | src/transacion/mod.rs:43 | succeeds exactly on `txn`, `*` or `!`; `txn` gives no flag, and a flag character is kept as it is |
| EarlyTransactions.ParseHeader | src/transacion/mod.rs:50-51 | never fails for good, and success consumes input |
| EarlyTransactions.MorePostings | src/transacion/mod.rs:52 | never grows the input |
| EarlyTransactions.PostingsAsWritten | src/transacion/mod.rs:52 | `many1`: succeeds exactly when one posting is read, gives at least one posting, and consumes input |
| EarlyTransactions.ParseTransactionAsWritten | src/transacion/mod.rs:42-61 | never fails for good; a transaction read carries its header's flag, payee and description and at least one posting |
| EarlyTransactions.IndentedPostingRejected | src/transacion/mod.rs:51-52 | as written, a transaction whose first posting line is indented is rejected |
| EarlyTransactions.SecondLineNotRead | src/transacion/mod.rs:52 | as written, a posting followed by a line break is the last posting read |
| EarlyTransactions.PostingLine | src/transacion/mod.rs:52 | an indented posting line: never fails for good, and success consumes input |
| EarlyTransactions.PostingLines | src/transacion/mod.rs:52 | one or more posting lines: succeeds exactly when the first line is one, and consumes input |
| EarlyTransactions.ParseTransaction | src/transacion/mod.rs:42-61 | never fails for good; a transaction read carries its header's flag, payee and description and at least one posting |
| EarlyTransactions.PostingLineOf | src/transacion/mod.rs:52 | an indented posting ending its line is read together with its line feed |
| EarlyTransactions.PostingLinesOrder | src/transacion/mod.rs:52 | posting lines are read in order, one after another, up to the first line that is not one |
| EarlyTransactions.OtherKeywordRejected | src/transacion/mod.rs:114-118 | input starting with neither `txn` nor a flag, such as `open ...`, is not a transaction |
| EarlyTransactions.DescriptionRequired | src/transacion/mod.rs:44-51 | the description is mandatory: after the flag and blanks a quoted string must follow |
| EarlyTransactions.HeaderLineEnd | src/transacion/mod.rs:51 | after the description, the header is read exactly when blanks and a line feed follow, and then holds the flag and description |
| Directives.AsTransaction | src/directive.rs:56-72 | gives a transaction exactly when the directive is one, and then that transaction |
| Directives.Date | src/directive.rs:76-88 | every kind of directive has a date except an include |
| Directives.Alt | src/directive.rs:106-116 | misses exactly when every one of the seven parsers misses |
| Directives.AltIsFirstSuccess | src/directive.rs:106-116 | the parsers are tried in order, and the first that does not miss decides the result |
| Directives.AltKinds | src/directive.rs:107-115 | a kind is read exactly when its parser succeeds and every parser tried before it misses, and the directive holds that parser's value and remainder |
| Directives.ParsedDate | src/directive.rs:76-115 | a directive read, other than a `close`, carries the date its text starts with; an include has none |
| Directives.JunkAfterTransactionHeader | src/directive.rs:107-108 | a transaction header followed by junk fails the whole directive for good, and no later kind is tried |
| Directives.Commits | src/directive.rs:107-108 | a transaction parser that does not miss decides the result, whatever the others would make of the input |
| Directives.BlankStart | src/directive.rs:106-116 | on empty input or input starting with a blank, only the `close` parser can decide the result |
| Directives.NotDated | src/directive.rs:108-113 | input not starting with a digit is no transaction, price, open, assertion or pad |
| Directives.PadOf | src/directive.rs:106-116 | a `pad` line not taken as a `close` is a pad directive whose first account is the target and second the source |
| Directives.OtherKeyword | src/directive.rs:108-110 | after a date and blanks, `pad` is neither a transaction, a price nor an open |
| Opens.Parse | src/open.rs:45-55 | never fails for good; an open read has the date its text starts with, no currency, and consumes input |
| Opens.ParseWithCurrency | src/open.rs:57-74 | succeeds exactly when the default build does, with the same date and account and at most one currency, reading more exactly when a currency is present |
| Opens.ParseOf | src/open.rs:45-55 | a date, `open` between blanks and an account are read back as an open of that account on that date |
| Opens.KeywordNeedsBlanks | src/open.rs:48-51 | blanks are required on both sides of `open`, in both builds |
| Opens.CurrencyOf | src/open.rs:63-71 | the `unstable` build reads a currency written after the account and blanks |
| Prices.OptionalComment | src/price.rs:52 | never grows the input; a comment is present exactly when one starts after the blanks |
| Prices.Parse | src/price.rs:46-61 | a price read has the date its text starts with and an upper-case commodity, and consumes input |
| Prices.ParseOf | src/price.rs:46-61 | a date, `price` between blanks, a commodity, blanks and an amount are read back as those values, followed by the optional comment |
| Prices.CommentOf | src/price.rs:52 | a comment after the amount, blanks before it, is kept trimmed and its line ending left in the input |
| Prices.NoComment | src/price.rs:52 | without a `;` after the blanks there is no comment and nothing is read |
| Prices.CommodityNeedsBlank | src/price.rs:50 | a commodity must be followed by a blank: another character is a miss, the end of the input a failure |
| Assertions.Parse | src/assertion.rs:42-55 | an assertion read has the date its text starts with, and consumes input |
| Assertions.AfterDate | src/assertion.rs:45-47 | what follows the date keeps that date and consumes input |
| Assertions.Balance | src/assertion.rs:46-47 | the account and amount keep the date and consume input |
| Assertions.ParseOf | src/assertion.rs:42-55 | a date, `balance`, an account and an amount separated by blanks are read back as those values, and an amount ending the input leaves nothing |
| Assertions.AmountStart | src/assertion.rs:47 | no amount starts with a blank or at the end of the input |
| Assertions.MissingAccount | src/assertion.rs:83-87 | `balance` with nothing after it is rejected |
| Assertions.MissingAmount | src/assertion.rs:46-47 | an account with no amount after it is rejected: a failure at the end of the input, a miss before another character |
| Pads.Parse | src/pad.rs:33-46 | never fails for good; a pad read has the date its text starts with, and consumes input |
| Pads.ParseOf | src/pad.rs:33-46 | the first account written is the target and the second the source |
| Pads.NeedsSource | src/pad.rs:37-38 | a target not followed by blanks and a second account is rejected |
| Pads.KeywordNeedsBlanks | src/pad.rs:36 | blanks are required on both sides of `pad` |
| Includes.Parse | src/include.rs:25-29 | never fails for good; success needs the `include` keyword and consumes input |
| Includes.ParseOf | src/include.rs:25-29 | `include`, blanks and a quoted path are read back as that path, and nothing after the closing quote is read |
| Includes.NeedsPath | src/include.rs:43-49 | `include` alone, or followed by blanks and no string, is rejected |
| Includes.SecondStringLeft | src/include.rs:43-49 | a second string after the path is left unread, so a parse that must consume all its input misses |
| Events.Parse | src/event.rs:14-19 | never fails for good; success consumes input, and the name is the first string |
| Events.ParseOf | src/event.rs:14-19 | the first string is the name and the second the value; what follows is left unread |
| Events.NeedsBlank | src/event.rs:16 | two strings without a blank between them are not an event |
| Events.NeedsValue | src/event.rs:17 | a name followed by blanks and no second string is not an event |
| Events.NeedsName | src/event.rs:15 | input that does not start with a quote is not an event |
| LibEntries.Body | src/lib.rs:402-428 | never grows the input; the content is a price exactly for `price` and an event exactly for `event` |
| LibEntries.Keyword | src/lib.rs:401-428 | misses exactly when the keyword is absent; once the keyword is read the directive is committed, and success consumes input |
| LibEntries.Keywords | src/lib.rs:400-429 | success consumes input |
| LibEntries.ParseDirective | src/lib.rs:390-445 | misses exactly when there is no date, or the date and blanks are followed by neither a transaction nor a keyword directive ending its line; a directive read has that date and consumes input |
| LibEntries.TransactionDirectiveOf | src/lib.rs:390-397 | a date, blanks and a transaction read are the directive with that date, that transaction and its metadata |
| LibEntries.KeywordDirectiveOf | src/lib.rs:390-445 | a date, blanks, a keyword directive read and a line ending are the directive with that date and content, and the metadata read after the line |
| LibEntries.KeywordOfBody | src/lib.rs:401-428 | a keyword, blanks and any text read as that keyword's body, committed |
| LibEntries.ParseOption | src/lib.rs:447-453 | never fails for good, and success consumes input |
| LibEntries.ParseInclude | src/lib.rs:455-459 | misses exactly when the keyword is absent; after it the parser is committed, and success consumes input |
| LibEntries.TagAfter | src/lib.rs:463-464 | never fails for good, and success consumes input |
| LibEntries.TagStackOperation | src/lib.rs:461-467 | never fails for good; success is a push or a pop and consumes input |
| LibEntries.Attempt | src/lib.rs:380-386 | every alternative of `entry` that succeeds consumes input, and the tag operation yields a push or a pop |
| LibEntries.Alt | src/lib.rs:380-386 | misses exactly when every alternative misses |
| LibEntries.ParseEntry | src/lib.rs:379-388 | success consumes input |
| LibEntries.KeywordsExclusive | src/lib.rs:400-429 | at most one directive keyword starts any text |
| LibEntries.KeywordDecides | src/lib.rs:400-429 | the keyword that starts the text decides which directive is read |
| LibEntries.NoKeyword | src/lib.rs:400-429 | text starting with no keyword is no keyword directive |
| LibEntries.KeywordCommits | src/lib.rs:390-445 | once the date, blanks and a keyword are read, a later mismatch fails the whole entry for good instead of being skipped as a comment |
| LibEntries.KeywordNotTransaction | src/lib.rs:394-397 | a directive keyword is not the start of a transaction |
| LibEntries.DateNeedsBlank | src/lib.rs:393 | a date not followed by a blank fails the entry for good |
| LibEntries.OptionOf | src/lib.rs:447-453 | two quoted strings after `option` and blanks are its name and value, and the line ending is consumed |
| LibEntries.IncludeNeedsPath | src/lib.rs:457 | `include` followed by anything but blanks and a quoted string fails for good |
| LibEntries.TagOperationOf | src/lib.rs:461-467 | `pushtag`, blanks and `#name` push `name`, and `poptag` likewise pops it |
| LibEntries.TagAfterOf | src/lib.rs:463-464 | the keyword, blanks and `#name` give the tag `name` |
| LibEntries.CommentLine | src/lib.rs:380-386 | when nothing else applies a whole line, line ending included, is skipped as a comment; a last line without a line ending misses |
| LibEntries.DirectiveFirst | src/lib.rs:380-381 | a directive parser that does not miss decides the entry, and a directive read is the entry |
| LibEntries.JunkLine | src/lib.rs:379-388 | a line that no entry starts is skipped whole, except a last line without a line ending, which misses |
| Iterators.EntryConsumes | src/lib.rs:379-388 | `entry` takes up input whenever it reads an entry, so iterating over it ends |
| Iterators.Stamp | src/iterator.rs:30-35 | a directive keeps its date and metadata and its kind; only a transaction changes |
| Iterators.Raws | src/iterator.rs:28-54 | nom's iterator stops either with the input `entry` could not read or with a failure, never with a plain miss |
| Iterators.Apply | src/iterator.rs:28-50 | the iterator hands out at most one entry per raw entry read |
| Iterators.YieldsTails | src/iterator.rs:51-54 | the entries handed out, and whether a syntax error ends them, are told apart from the items alone |
| Iterators.Finished | src/iterator.rs:51-54 | once the iterator stops it has handed out every entry of the ledger, and it ends with a syntax error exactly when the ledger was not all read |
| Iterators.NextStep | src/iterator.rs:26-55 | a call of `next` that hands out an entry consumes input |
| Iterators.Iter.constructor | src/iterator.rs:13-18 | a new iterator is at the start of the input with no tags pushed |
| Iterators.Iter.Next | src/iterator.rs:26-55 | the item returned is the first of everything still to come; after nothing or a syntax error the iterator is done, and once done it returns nothing and changes nothing |
| Iterators.NextYieldsOutputs | src/iterator.rs:26-55 | one call of `next` yields the first of everything the iterator yields and the later calls the rest in order; when it stops there is nothing more or exactly one syntax error |
| Iterators.EmittedCons | src/iterator.rs:29-48 | a directive, option or include is handed out; a pushed tag joins the set, a popped tag leaves it, and a comment changes nothing |
| Iterators.CommentsOnly | src/iterator.rs:48 | comment lines hand out no entry and leave the tags as they were |
| Iterators.PushedTagStamped | src/iterator.rs:31-33 | a pushed tag is added to the next transaction on top of its own tags and those pushed before |
| Iterators.PushTwicePopOnce | src/iterator.rs:42-47 | the pushed tags form a set: pushing a tag twice and popping it once removes it |
| Iterators.PopAbsent | src/iterator.rs:45-47 | popping a tag that was not pushed changes nothing |
| Iterators.PassThrough | src/iterator.rs:30-41 | options, includes and directives that are not transactions are handed out unchanged and in place |
| NomParsers.StandardConsumes | src/directive.rs:106-116 | `directive` takes up input whenever it reads a directive, provided the close parser does |
| NomParsers.AltConsumes | src/directive.rs:106-116 | when every alternative that succeeds consumes input, so does their `alt` |
| NomParsers.TagOperation | src/nom_parser.rs:77-83 | success needs the keyword, consumes input and gives a tag free of whitespace and `#` |
| NomParsers.CommentLine | src/nom_parser.rs:73 | never fails for good; on non-empty input success consumes input, and it misses exactly at a lone carriage return |
| NomParsers.ParseChunk | src/nom_parser.rs:68-75 | a directive is tried first and, when read, is the chunk; a directive chunk is what `directive` read; on non-empty input success consumes input |
| NomParsers.Retain | src/nom_parser.rs:56 | the tag removed no longer occurs, and the list does not grow |
| NomParsers.ChunkerAdvances | src/nom_parser.rs:68-75 | `chunk` takes up input whenever it reads non-empty input, so the loop of `next` ends |
| NomParsers.Tagged | src/nom_parser.rs:49-52 | a transaction gains the tags after its own and nothing else changes; any other directive is unchanged |
| NomParsers.NextOf | src/nom_parser.rs:42-65 | on empty input nothing is returned and nothing changes; after nothing or an error the input is used up; otherwise input is consumed, and `line` never goes back and counts a directive's chunk and postings |
| NomParsers.Parser.constructor | src/nom_parser.rs:30-36 | a new parser has the whole input to read, no tags, and line 1 |
| NomParsers.Parser.Next | src/nom_parser.rs:42-65 | returns and leaves exactly what one step of the iterator specifies for its fields |
| NomParsers.Exhausted | src/nom_parser.rs:43-64 | once `next` has returned nothing or an error, every later call returns nothing and changes nothing |
| NomParsers.Retagging | src/nom_parser.rs:55-57 | a `pushtag` keeps every tag and appends its own; a `poptag` removes every occurrence of its tag and keeps every occurrence of the others; other chunks change nothing |
| NomParsers.RetainCounts | src/nom_parser.rs:56 | `retain` keeps every occurrence of the other tags and none of the removed one |
| NomParsers.RetainAppend | src/nom_parser.rs:56 | removing a tag from a concatenation removes it from each part |
| NomParsers.PopAbsent | src/nom_parser.rs:56 | popping a tag that is not pushed leaves the tags as they are |
| NomParsers.PushTwicePopOnce | src/nom_parser.rs:55-56 | the tags are a list: a tag pushed twice is kept twice, and one pop removes both |
| NomParsers.PushOrder | src/nom_parser.rs:49-55 | tags pushed one after another come after the transaction's own tags, in push order |
| NomParsers.TransactionTagged | src/nom_parser.rs:44-53 | a transaction read next is returned with the current tags after its own, and `line` counts its chunk and its postings |
| NomParsers.ChunkerSkipsComments | src/nom_parser.rs:68-75 | a `;` line, line ending included, is read as one comment chunk when no directive starts with `;` |
| NomParsers.CommentChunk | src/nom_parser.rs:68-75 | a comment line that is no directive is read as one comment chunk |
| NomParsers.NoTagOperation | src/nom_parser.rs:77-83 | input starting with `;` is no `pushtag` and no `poptag` |
| NomParsers.CommentLineOf | src/nom_parser.rs:73 | a comment line is read up to and including its line ending |
| NomParsers.CommentsOnly | src/nom_parser.rs:42-65 | an input of comment lines yields no directive: `next` returns nothing, the tags are untouched, and `line` counts every line |
| ReadFiles.Delivered | src/lib.rs:172-190 | what `on_entry` receives from a file holds no include and is no longer than the file's entries |
| ReadFiles.Walk | src/lib.rs:167-191 | no include reaches `on_entry`; only paths not loaded are pushed, each the target of an include of the file; when no include fails, every other entry is handed on and every include's target is loaded or pushed; an include that fails names the path it joins to the file's directory, which cannot be canonicalized |
| ReadFiles.Canonicals | src/lib.rs:150-156 | either every given path canonicalized, in order, or the first path that cannot be |
| ReadFiles.DeliveredAll | src/lib.rs:158-192 | everything handed to `on_entry` from the files read holds no include |
| ReadFiles.ReadOne | src/lib.rs:167-191 | the paths pushed and entries handed on are those of the walk over the file's entries; the error is the include that could not be canonicalized, else a syntax error in the file, else none |
| ReadFiles.ReadFilesWith | src/lib.rs:145-194 | the error, the entries handed to `on_entry` and the files read, in order, are those of the reference reading that pops the top of the stack and pushes the include targets; a root with no canonical path fails before anything is read; otherwise each file is read at most once, only existing files are read, each file read is a root or an include target of a file read before it; on success every root and every include was read, each file parsed whole and `on_entry` got their entries in the order read; on failure either a stacked path has no file, after every earlier file was handed on whole, or the last file read fails at its first include that cannot be canonicalized or else with a syntax error, after only its entries before the failure |
| ReadFiles.ReadFilesV2 | src/lib.rs:145-194 | the same reading, with the same outcome, with `entry` as the parser of each file |
| ReadFiles.ReadFilesDeprecated | src/lib.rs:127-135 | the same reading and outcome as `read_files_v2`, the error keeping only its kind |
| ReadFiles.Visit | src/lib.rs:158-191 | one turn of the loop leaves the rest of the reading unchanged and either loads a new file or shrinks the stack; an error it returns is the end of the reading |
| ReadFiles.ReadTraced | src/lib.rs:173-187 | every file read or pending is a root or the target of an include of a file read before it |
| ReadFiles.Done | src/lib.rs:158-193 | an empty stack with the loop invariant is the promised success |
| ReadFiles.ReadAllOutcome | src/lib.rs:145-194 | the reference reading keeps every promise of `read_files_v2`, on success and on each way of failing |
| ReadFiles.RunEnds | src/lib.rs:158-193 | from any state of the loop that keeps its invariant the rest of the reading ends as promised |
| ReadFiles.Unreadable | src/lib.rs:164-166 | a stacked path with no file ends the reading with an I/O error naming it, after every file read before was parsed whole and handed on |
| ReadFiles.Failed | src/lib.rs:164-185 | a file whose include cannot be canonicalized, or which cannot be parsed, ends the reading with the error naming that include's path or the file, after the earlier files whole and this file's entries before the failure |
| ReadFiles.FewerUnloaded | src/lib.rs:158-162 | loading a new existing file leaves fewer files to load, so the loop ends |
| ReadFiles.WalkSnoc | src/lib.rs:167-191 | the walk over one more entry extends the walk so far by that entry alone |
| ReadFiles.WalkFailed | src/lib.rs:182-184 | once an include fails the rest of the file is not looked at |
| ReadFiles.WalkLoaded | src/lib.rs:172-190 | what a walk hands on and where it fails do not depend on the paths loaded |
| ReadFiles.PrefixOfEntries | src/lib.rs:167-171 | the entries read so far are a prefix of the file's entries |
| BeancountFiles.FindOption | src/lib.rs:250-255 | there is no value exactly when no option has that name |
| BeancountFiles.BeancountFile.constructor | src/lib.rs:216-224 | a new file has no option, no include and no directive |
| BeancountFiles.BeancountFile.Option | src/lib.rs:250-255 | there is no value exactly when no option has that name |
| BeancountFiles.BeancountFile.Extend | src/lib.rs:258-268 | each entry goes, in order, to the end of the directives, the options or the includes, by its kind |
| BeancountFiles.FromEntries | src/lib.rs:270-276 | a new file holding the entries sorted by kind, in order |
| BeancountFiles.ParseLedger | src/lib.rs:110-115 | fails exactly when the ledger was not all read; otherwise the file holds every entry of the ledger, sorted by kind, in order |
| BeancountFiles.Collect | src/lib.rs:270-276 | collecting the iterator fails exactly when it ends with a syntax error, and otherwise holds every entry it yielded, sorted by kind |
| BeancountFiles.FirstOptionWins | src/lib.rs:250-255 | the value found is that of the first option with the name |
| BeancountFiles.NothingDropped | src/lib.rs:258-268 | every entry lands in exactly one of the three lists |
| BeancountFiles.SortAppend | src/lib.rs:258-268 | sorting a concatenation sorts each part, so relative order is kept |
| BeancountFiles.SingleEntry | src/lib.rs:262-266 | an entry is a directive, an option or an include, and goes to that list alone |

## Left out

- The `account` module of the src/lib.rs generation (`account::parse`, `balance`, `open`, `close`, `pad`) and `close::close` are not part of this model. They are parameters (`External.Scanner`). Their values are kept as the text they matched.
- The pest-based code is left out: src/pest.rs, src/pest_parser.rs, src/pest_parser/transaction.rs, src/commodity.rs, src/option.rs and every `from_pair`. It is driven by a grammar file that is not part of this model.
- `try_into_f64` and the floating-point instantiations are left out. The decimal type is an exact `real`.
- Decimal rounding, overflow and precision limits are not modelled.
- Decimals.Div: a zero divisor gives `Decimals.DIV_BY_ZERO` (0). The source's decimal type panics there, and the model has no panic.
- nom's streaming `Incomplete` at the end of input (from `space1` in src/price.rs, src/assertion.rs and src/nom_parser.rs) is modelled as a `Failure`.
- The file system of `read_files_v2` is a map from canonical paths to file contents. `canonicalize`, `parent` and `join` are the parameters in `ReadFiles.PathOps`.
- A path with no parent (the source's `expect`) is not modelled, because `PathOps.parent` is total.
- The buffer that `read_files_v2` reuses between files is not modelled. Each file's text is read afresh.
- Error payloads (nom's error kinds, miette diagnostics, `ReadFileErrorV2`'s inner error) are reduced to the error's kind and path.
- Input positions (`nom_locate` spans, `line_number`) are left out. The `line` counter of src/nom_parser.rs is modelled as an unbounded `nat`, so its `u64` overflow is not.
- Unicode character classes (`is_alphanumeric`, `is_uppercase`, `is_numeric`, `is_whitespace`) are approximated by their ASCII subsets.
- `HashMap` and `HashSet` iteration order is not modelled. `AmountSum` exposes its totals as a `map`, and tag sets are Dafny `set`s.
- Transactions.AppendTags: `append_tags` (src/transaction/mod.rs:125-127) extends the tag vector of a transaction in place. The model returns a new transaction value with the tags appended, so aliasing of the vector is not modelled.
- examples/balance.rs, src/v2/, src/span.rs, build.rs and the benchmarks are left out. `Close` is a plain record (`Closes`).

## Findings

| source | as written | input that shows it | evidently intended | confidence | as-written member | corrected member |
|---|---|---|---|---|---|---|
| src/transacion/mod.rs:52 | `many1(posting)` comes straight after the header's line feed. `posting` neither skips a line's indentation nor consumes its line ending. | the test input at src/transacion/mod.rs:68-71, `* "Hello"`, a line feed, then `Expenses:A 10 CHF` indented by blanks on the next line: the line after the header starts with a blank, so no posting is read and the transaction is rejected, where the test expects two postings | each posting on its own indented line, read one line at a time | not executed | EarlyTransactions.IndentedPostingRejected | EarlyTransactions.PostingLinesOrder |
