# parc in Dafny

A model of the parser-combinator engine of `parc` (github.com/tombenke/parc),
a Go library in which every parser is a function from one parse state to the
next. A parse state holds:

- the input;
- a byte cursor;
- the last result;
- an error flag and an error value.

The model covers:

- the state algebra, with Go's UTF-8 rune decoding;
- the literal, anchor and predicate-driven primitives;
- the combinators (sequence, ordered choice, the repetitions, `Map`,
  `ErrorMap`, `Chain`, `Between`) and the `Parse` entry point;
- the derived parsers of `utils.go`;
- the early prototype in `parc.go`;
- two grammars built with the library: the prefix-arithmetic micro-language
  with its integer evaluator, and the infix formula recogniser of the errors
  tutorial.

Parsers are a deep embedding: `Combinators.Parser` is a datatype with one
constructor per Go constructor. The closures Go stores become Dafny functions.
A forward-declared parser variable (`var expression parc.Parser` and
`&expression`) is a `Ref(name)`, looked up in a grammar map when it runs.

`Combinators.Run` is the reference semantics. It is a functional interpreter
that returns the state the Go closure returns, or `None` when its `fuel` runs
out. Go's loops do not always terminate: a repetition of a child that succeeds
without consuming input runs forever, and a grammar may recurse through its
variables. The fuel bounds both the nesting of parser calls and the iterations
of every loop.

The imperative `Exec*` methods follow the Go closures statement by statement:

- `SequenceOf` and `Choice` loop over their children;
- the repetitions share one loop;
- `CondMin` and `CondMinMax` loop over runes, appending to a byte buffer.

Each method is proved to return exactly what `Run` specifies. The lemmas in
`CombinatorLaws`, `Maps`, `Utils`, `MicroLanguage` and `Formula` then state
what the library promises about `Run`.

Where the specification of the library and its code disagree, the model
follows the code:

- `updateParserState` does not clear the error flag.
- `Str` fails on empty remaining input even for the empty literal.
- `IsBinaryDigit` accepts '0'..'7'.
- `Chain` does not propagate a failure of its second stage.
- `ErrorMap` has no guard for an errored incoming state.
- A failed `Count`, `CountMin` or `CountMinMax` carries a nil error, because Go
  shadows `testState` inside the loop.
- `CondMinMax` counts phantom matches at the end of the input when its
  predicate accepts U+FFFD.
- Several names exist both as functions in `primitives.go` and as variables in
  `conditionals.go` and `utils.go`: `Letter`, `Letters`, `Digit`, `Digits` and
  `Integer`. The model uses the variables. The functions in `primitives.go`
  are the same character classes read through a regular expression, which the
  model does not implement.
- The errors tutorial binds `expression` to a mapper whose Expression node
  takes the list of additive steps as its first operand (see Findings).
  `Formula.FormulaGrammar` is that binding; `Formula.FormulaGrammarCorrected`
  binds the corrected mapper, and `Formula.ParseFormula` takes either.

Files:

| file | module | models |
|---|---|---|
| wrappers.dfy | Wrappers | `Option` |
| utf8.dfy | Utf8 | Go's `utf8.DecodeRuneInString` and the encoder behind `string(r)` and `utf8.AppendRune` |
| state.dfy | ParserState | state.go |
| primitives.dfy | Primitives | primitives.go |
| conditionals.dfy | Conditionals | conditionals.go |
| combinators.dfy | Combinators | combinators.go, maps.go and the closures of parser.go: `Run` and the `Exec` methods |
| combinator_laws.dfy | CombinatorLaws | the properties of the combinators |
| maps.dfy | Maps | the properties of `Map` and `ErrorMap` |
| parser.dfy | Parsing | parser.go: `Parse`, `Name` |
| utils.dfy | Utils | utils.go |
| prototype.dfy | Prototype | parc.go |
| micro_language.dfy | MicroLanguage | tutorial/micro-language/main.go |
| formula.dfy | Formula | tutorial/errors/parsers.go |
| formula_examples.dfy | FormulaExamples | the formula grammar on the tutorial's own test formulas |

## Model

| member | source | states |
|---|---|---|
| ParserState.NewParserState | state.go:19-32 | the error flag is set exactly when an error value is given; the other fields are the arguments; the new state is consistent |
| ParserState.Remaining | state.go:42-44 | the remaining input is as long as the input minus the cursor |
| ParserState.RemainingSplits | state.go:42-44 | the consumed prefix followed by `Remaining` is the whole input |
| ParserState.AtTheEnd | state.go:52-54 | on a valid state, at the end exactly when nothing remains |
| ParserState.Consume | state.go:57-64 | the cursor moves exactly `n` bytes forward; nothing else changes |
| ParserState.NextRune | state.go:36-39 | the rune is the first decoded rune of `Remaining`; the state has consumed its width; the cursor stays only at the end; a valid rune re-encodes to the consumed bytes |
| ParserState.CountByte | state.go:73 | the count is the byte's multiplicity in the input, so at most its length, and zero exactly when the byte is absent |
| ParserState.LastIndexByte | state.go:74 | -1 or a position holding the byte, with no occurrence after it |
| ParserState.IndexRowCol | state.go:72-76 | row >= 1 and 1 <= col <= index+1; with no newline before the cursor, row 1 and column index+1 |
| ParserState.IndexRowColStep | state.go:72-76 | moving over one byte moves the column right, or over a newline starts the next row at column 1 |
| ParserState.UpdateState | state.go:86-91 | only cursor and result are replaced; flag and error stay |
| ParserState.UpdateError | state.go:94-102 | flag set and error replaced; cursor and result stay, so a failure never moves the cursor |
| Utf8.DecodeRune | state.go:37 | empty input gives (U+FFFD, 0); otherwise a width of 1 to 4 bytes within the input |
| Utf8.DecodeAscii | state.go:37 | an ASCII byte decodes as itself, one byte wide |
| Utf8.DecodeCases | state.go:37 | what each decode width means: the bytes read and the value built, or U+FFFD at width 1 |
| Utf8.DecodeForms | state.go:37 | the well-formed 2-, 3- and 4-byte encodings decode to their value at their width |
| Utf8.DecodeScalar | state.go:37 | every non-error rune, and every multi-byte decode, is a Unicode scalar value |
| Utf8.EncodeRune | conditionals.go:94 | 1 to 4 bytes; a non-scalar encodes as U+FFFD |
| Utf8.DecodeEncode | conditionals.go:135 | decoding reads back what encoding wrote, whatever follows |
| Utf8.EncodeDecode | conditionals.go:135 | encoding a decoded rune gives back the bytes it was decoded from |
| Utf8.DecodePrefix | state.go:37 | a decode depends only on the bytes it reads |
| Primitives.Char | primitives.go:11-27 | an errored state passes unchanged; success iff `s` is one byte and a prefix of the remaining input; then one byte on with result `s`; a wrong argument is reported; a failure keeps cursor and result |
| Primitives.Str | primitives.go:65-82 | an errored state passes unchanged; success iff input remains and `s` is its prefix, even for an empty `s`; then the cursor moves \|s\| with result `s`; at the end an unexpected-end error; a failure keeps cursor and result |
| Primitives.StrMatches | primitives.go:75-76 | a non-empty literal at the cursor is consumed and returned |
| Primitives.StrOneByte | primitives.go:71-79 | a one-byte Str: an unexpected end at the end, the byte one step on, or a no-match at the cursor |
| Primitives.StartOfInput | primitives.go:30-44 | succeeds iff the cursor is 0, returning the state unchanged, previous result included |
| Primitives.EndOfInput | primitives.go:47-62 | succeeds iff the cursor is at the end, zero-width, previous result kept |
| Conditionals.ClassRelations | conditionals.go:13-73 | hex extends decimal; binary equals octal ('7' in, '8' out); alphanumeric is letter or digit; whitespace is space, tab or newline; only the catch-alls accept U+FFFD |
| Conditionals.Cond | conditionals.go:78-98 | fails at the end and on a rejected rune, cursor unchanged; success consumes one rune's width, with that rune as a string |
| Conditionals.Scan | conditionals.go:124-136 | the scan takes at most one rune per byte and stops inside the input |
| Conditionals.ScanMatches | conditionals.go:124-136 | the scanned bytes are matching runes, and the scan stops at a non-matching rune or U+FFFD |
| Conditionals.ScanLongest | conditionals.go:124-136 | no run of matching runes goes past the scan |
| Conditionals.CondMin | conditionals.go:104-144 | fails for min < 0, at the end for min > 0, and iff fewer than min runes match; success takes the scanned run as a string; a failure keeps cursor and result |
| Conditionals.CondMinGreedy | conditionals.go:124-140 | a successful CondMin took matching runes only, the next rune does not match, and any matching run is no longer |
| Conditionals.ScanMatching | conditionals.go:119-136 | the Go loop's count, state and buffer are the scan's count, its stop position and the bytes in between |
| Conditionals.ScanStep | conditionals.go:129-135 | one loop round: a matching rune adds one to the count of the scan from the next position |
| Conditionals.ScanCondMin | conditionals.go:106-141 | the closure with its loop returns exactly CondMin |
| Conditionals.ScanMax | conditionals.go:170-181 | the bounded scan stays in the input and counts at most `k` more runes |
| Conditionals.ScanMaxBounded | conditionals.go:170-181 | with a predicate rejecting U+FFFD, the count is min(max, CondMin's count), stopping where CondMin does when max suffices |
| Conditionals.ScanMaxConsumed | conditionals.go:170-181 | with a predicate rejecting U+FFFD, the buffer is exactly the consumed bytes |
| Conditionals.ScanMaxAtEnd | conditionals.go:170-181 | with a predicate accepting U+FFFD, at the end of input every remaining round counts a phantom match: the cursor stays and the buffer gains one U+FFFD encoding per round |
| Conditionals.CondMinMax | conditionals.go:150-189 | fails for min < 0 or min > max, at the end for min > 0, and iff the bounded scan counts fewer than min matches; success stops where the scan of at most max runes stops, with its buffer as the string; a failure keeps cursor and result |
| Conditionals.ScanBounded | conditionals.go:165-181 | the Go loop, with its test of the state's error flag, returns the bounded scan's count, position and buffer |
| Conditionals.ScanCondMinMax | conditionals.go:152-186 | the closure with its loop returns exactly CondMinMax |
| Combinators.Run | combinators.go:9-273 | every parser keeps the input, never moves the cursor back, fails without moving or changing the result, never clears an error, and keeps a consistent state consistent |
| Combinators.Repeat | combinators.go:47-55 | the repetition loop only appends results; with a bound it collects at most `max`; with no new result the state is the last one; the last result is the last state's |
| Combinators.SecondItem | combinators.go:268-271 | the mapper of Between returns item 1 of the list |
| Combinators.Exec | parser.go:33-52 | a parser's closure (the wrapper adds only debug output) returns exactly `Run` |
| Combinators.ExecSequenceOf | combinators.go:11-25 | the loop that returns early at the first failure equals `RunSequenceOf` |
| Combinators.ExecChoice | combinators.go:220-232 | the loop that returns the first success equals `RunChoice` |
| Combinators.ExecRepeat | combinators.go:167-177 | the shared repetition loop equals `Repeat` |
| Combinators.ExecCount | combinators.go:39-60 | Count's closure equals `RunCount` |
| Combinators.ExecCountMin | combinators.go:74-95 | CountMin's closure equals `RunCountMin` |
| Combinators.ExecCountMinMax | combinators.go:109-130 | CountMinMax's closure equals `RunCountMinMax` |
| Combinators.ExecZeroOrOne | combinators.go:140-151 | ZeroOrOne's closure equals `RunZeroOrOne` |
| Combinators.ExecZeroOrMore | combinators.go:161-179 | ZeroOrMore's closure equals `RunZeroOrMore` |
| Combinators.ExecOneOrMore | combinators.go:190-211 | OneOrMore's closure equals `RunOneOrMore` |
| Combinators.ExecMap | maps.go:7-19 | Map's closure equals `RunMap` |
| Combinators.ExecErrorMap | maps.go:29-36 | ErrorMap's closure equals `RunErrorMap` |
| Combinators.ExecChain | combinators.go:241-254 | Chain's closure equals `RunChain` |
| Combinators.ExecPrimitive | conditionals.go:106-141 | the primitives' closures, CondMin's and CondMinMax's loops included, equal `Run` |
| Combinators.ExecRepetition | combinators.go:37-214 | the repetition closures equal `Run` |
| Combinators.ExecComposition | combinators.go:9-257 | sequence, choice, the maps, Chain and a reference's lookup equal `Run` |
| CombinatorLaws.ErroredStatePassesThrough | combinators.go:12-14 | every parser but ErrorMap and a reference returns an errored incoming state unchanged |
| CombinatorLaws.RefRuns | tutorial/errors/parsers.go:64 | a forward-declared variable runs the parser later bound to it |
| CombinatorLaws.SequenceIsThreaded | combinators.go:16-24 | SequenceOf's loop is the children threaded in order, each on the previous output |
| CombinatorLaws.SequenceOfRunsInOrder | combinators.go:9-28 | on success the result lists the children's results in order at the last child's cursor; on the first failure the incoming state, marked with that child's error |
| CombinatorLaws.ThreadedYields | combinators.go:17-22 | every item of a matched sequence is what its own child returned on success, from some live state |
| CombinatorLaws.RunMonotone | parser.go:60-65 | a run that finishes with some fuel finishes with the same state given more: the bound only cuts runs short, never changes an outcome |
| CombinatorLaws.RepeatMonotone | combinators.go:166-178 | the repetition loop, given more fuel and more rounds, reaches the same results and state |
| CombinatorLaws.SequenceOfPair | combinators.go:16-24 | two children: the second runs on the first's state; either failure is reported on the incoming state |
| CombinatorLaws.SequenceOfTriple | combinators.go:16-24 | three children, each on the state the previous one returned |
| CombinatorLaws.ChainedSnoc | combinators.go:17-18 | a chain of successes grows by a parser that succeeds on its last state |
| CombinatorLaws.ThreadedChain | combinators.go:16-24 | a chain of successes threads through to its last state, collecting every result in order |
| CombinatorLaws.SequenceOfChain | combinators.go:16-24 | SequenceOf over a chain of successes: the last state with the list of all results |
| CombinatorLaws.MappedChain | maps.go:11-18 | a mapped SequenceOf over a chain of successes: the mapper applied to the list of results |
| CombinatorLaws.ThreadedFailsAt | combinators.go:18-21 | a chain of successes reaching a failing child: the outcome is that child's error |
| CombinatorLaws.SequenceOfFailsAt | combinators.go:19-21 | then SequenceOf fails on the incoming state with that error |
| CombinatorLaws.AlternativesFindFirst | combinators.go:225-230 | the loop returns the first alternative that succeeds |
| CombinatorLaws.AlternativesSucceed | combinators.go:225-230 | a success of the loop is some alternative's first success |
| CombinatorLaws.AlternativesFail | combinators.go:225-231 | the loop fails, on the incoming state, exactly when every remaining alternative fails |
| CombinatorLaws.ChoiceTakesFirstSuccess | combinators.go:218-235 | Choice succeeds with state r iff r is the first successful alternative's state (declaration order wins), each tried on the incoming state |
| CombinatorLaws.ChoiceFailsWhenAllFail | combinators.go:218-235 | Choice fails with a no-alternative error on the incoming state iff every alternative fails |
| CombinatorLaws.RepeatStopsAtFailure | combinators.go:169-177 | the repetition loop stops only at its bound or where the child fails on the last successful state |
| CombinatorLaws.CountIsExact | combinators.go:37-63 | Count collects exactly n results or fails on the incoming state with a nil error; a negative n always fails |
| CombinatorLaws.CountMinMaxIsBounded | combinators.go:107-133 | on success a list of at least min and, for max >= 0, at most max results; with max < 0 the loop stops after the first child call, so the result is an empty list when min <= 0 and a failure otherwise; with 0 <= max < min it always fails; a failure is on the incoming state with a nil error |
| CombinatorLaws.CountMinIsBounded | combinators.go:72-98 | CountMin fails below min results, and never fails for min <= 0 |
| CombinatorLaws.ZeroOrMoreIsGreedy | combinators.go:159-182 | ZeroOrMore never fails, and the child fails on the state its last match left |
| CombinatorLaws.RepeatMatch | combinators.go:172-175 | a round of the loop on a match appends the result and goes on from the match |
| CombinatorLaws.RepeatStop | combinators.go:171-172 | a round on a failure ends the loop |
| CombinatorLaws.ZeroOrMoreRepeat | combinators.go:166-178 | ZeroOrMore is its loop from an empty list, returning the list at the loop's last state |
| CombinatorLaws.ZeroOrMoreNone | combinators.go:166-178 | a child that fails at once: an empty list, cursor unmoved |
| CombinatorLaws.ZeroOrMoreOnce | combinators.go:166-178 | one match, then a failure: a one-item list at the match's cursor |
| CombinatorLaws.OneOrMoreIsNonEmptyZeroOrMore | combinators.go:188-214 | OneOrMore is ZeroOrMore, except that no match fails on the incoming state |
| CombinatorLaws.CountMinZeroIsZeroOrMore | combinators.go:72-98 | CountMin(c, 0) returns the same states as ZeroOrMore(c) |
| CombinatorLaws.CountMinOneIsOneOrMore | combinators.go:72-98 | on a consistent state CountMin(c, 1) returns the same states as OneOrMore(c) |
| CombinatorLaws.CountIsCountMinMax | combinators.go:37-63 | for n >= 0, Count(c, n) returns the same states as CountMinMax(c, n, n) |
| CombinatorLaws.ZeroOrOneNeverFails | combinators.go:138-154 | ZeroOrOne never fails: a failing child gives a nil result at the incoming cursor, otherwise the child's state |
| CombinatorLaws.ChainNestsSecondStage | combinators.go:240-257 | Chain runs the made parser on the first output; the outer state keeps that cursor and holds the second stage's whole state, a failure included |
| CombinatorLaws.BetweenKeepsContent | combinators.go:262-273 | Between succeeds when left, content and right succeed in turn, with the content's result and the right's cursor, else fails on the incoming state with the first error |
| CombinatorLaws.MapSucceeds | maps.go:16-18 | Map on a success: the same state with the mapped result |
| CombinatorLaws.MapFails | maps.go:12-14 | Map on a failure: the failure, unmapped |
| CombinatorLaws.PairSucceeds | combinators.go:16-24 | two successes: the second's state with both results |
| Maps.MapTransformsResult | maps.go:6-22 | Map passes an errored state and a failing child's state through unchanged; on success it keeps cursor and error and maps the result |
| Maps.MapFusion | maps.go:16-18 | Map(Map(c, f), h) returns the same states as Map(c, h∘f) |
| Maps.MapIdentity | maps.go:16-18 | Map with the identity returns the child's states |
| Maps.ErrorMapRewritesError | maps.go:27-39 | a success passes untouched; a failure keeps flag, cursor and result and gets the mapped error |
| Maps.ErrorMapRewritesIncomingError | maps.go:29-35 | an errored incoming state goes through the child unchanged and gets its error rewritten |
| Parsing.InitialState | parser.go:63 | cursor 0, nil result, no error |
| Parsing.Parse | parser.go:61-65 | the result keeps the input and is consistent; a failure is at cursor 0 with a nil result |
| Parsing.Name | parser.go:32-58 | the name fixed when a parser is constructed: non-empty for every constructor; a forward variable read before its binding is empty |
| Parsing.NameOf | parser.go:55-58 | a variable read after the grammar binds it has its parser's name; only an unbound variable, or one bound to another variable, reads as empty |
| Utils.Atoi | utils.go:43 | non-negative; 0 on anything but a non-empty digit string |
| Utils.SignReadsOptionalSign | utils.go:84-91 | Sign never fails: it consumes and returns '+' or '-', and otherwise returns "+" without moving |
| Utils.CharPairChoice | utils.go:84 | a choice of two one-byte Chars: the byte that matched, or a failure at the cursor |
| Utils.DigitsTakeAllDigits | utils.go:38 | Digits takes the whole run of ASCII digits at the cursor and no more |
| Utils.NonNegativeIntegerValue | utils.go:41-45 | NonNegativeInteger returns the decimal value of the digits at the cursor, or fails there with Digits' error |
| Utils.IntegerParts | utils.go:51 | the sequence inside Integer: the sign and the digits' value |
| Utils.IntegerValue | utils.go:51-63 | Integer: the digits after an optional sign, negated after '-'; without digits a failure at the incoming cursor with a nil result kept |
| Utils.ExponentParts | utils.go:94 | the sequence inside Exponent: the mark, a sign, and an Integer reading its own sign |
| Utils.ExponentOptional | utils.go:94 | the optional part of Exponent: the three-item list, or nil |
| Utils.ExponentReadsSignedInteger | utils.go:94-108 | Exponent never fails: after 'e'/'E', a sign and an Integer, the value negated once more after '-'; otherwise 0 without moving |
| Utils.ExponentMapped | utils.go:96-107 | Exponent's mapper on the optional part gives the described state |
| Utils.DecimalRoundTrip | utils.go:43 | the value of the decimal digits of n is n |
| Utils.DigitBytesAreRunes | conditionals.go:207 | ASCII digit bytes are decimal-digit runes |
| Utils.DigitRunsAreBytes | conditionals.go:207 | a run of decimal-digit runes is a run of ASCII digit bytes |
| Utils.DigitsFromExact | utils.go:38 | Digits stops exactly where a run of ASCII digits ends |
| Utils.IntegerReadsText | utils.go:51-63 | Integer reads back the text of any integer not followed by a digit |
| Utils.NewlineOrEnd | utils.go:114 | the closing choice of RestOfLine: a consumed '\n', or the end |
| Utils.RestOfLineParts | utils.go:112-118 | RestOfLine's sequence and mapper give RestOfLineState |
| Utils.RestOfLineTakesLine | utils.go:112-118 | RestOfLine returns the state RestOfLineState describes |
| Utils.RestOfLineIsOneLine | utils.go:112-118 | success: non-empty text with no '\n', consuming it and the '\n' after it or up to the end; an empty line fails without moving |
| Utils.LineHasNoLineFeed | utils.go:113 | a run of runes other than '\n' holds no '\n' byte |
| Utils.AnyStrTakesTheRest | utils.go:26 | AnyStr on valid UTF-8 takes the rest of the input, counted in bytes |
| Utils.JoinStrDefined | utils.go:123-130 | joining succeeds exactly on lists of strings |
| Utils.JoinStrAppend | utils.go:126-128 | joining a concatenation concatenates the joins |
| Utils.JoinStrResults | utils.go:123-130 | the loop concatenating the items equals `Joined` |
| Utils.GetResultsItem | utils.go:146-161 | item idx when the result is a list and the item has the asked-for type, else nothing |
| Prototype.UpdateParserState | parc.go:55-62 | the cursor replaced and the tokens appended; nothing else changes |
| Prototype.UpdateParserResult | parc.go:65-68 | the tokens appended; nothing else changes |
| Prototype.UpdateParserError | parc.go:71-75 | marked failed; cursor and tokens stay |
| Prototype.Apply | parc.go:23-52 | a parser only extends a state: same target, cursor not back, tokens only appended, errors sticky |
| Prototype.Thread | parc.go:44-47 | threading children only extends the state |
| Prototype.Run | parc.go:105-109 | the run keeps the target and a valid cursor |
| Prototype.ExecSequenceOf | parc.go:37-52 | the loop that never leaves early equals `Apply` |
| Prototype.Exec | parc.go:23-52 | a prototype closure equals `Apply` |
| Prototype.StrAppendsToken | parc.go:23-35 | str succeeds iff the rest starts with its token; then the cursor moves past it and the token is appended; otherwise cursor and tokens stay |
| Prototype.FailurePassesThrough | parc.go:25-27 | a failed state passes every parser, and a whole sequence, unchanged |
| Prototype.SequenceIsThread | parc.go:42-48 | sequenceOf adds no tokens of its own: it is its children threaded |
| Prototype.ThreadAppend | parc.go:44-47 | threading a concatenation threads the parts in turn |
| Prototype.StrsMatchConcat | parc.go:44-47 | a sequence of strs succeeds iff the rest starts with the tokens in order; it then moves past all and appends exactly those |
| Prototype.HelloWorld | parc.go:83-93 | "Hello " then "World" on "Hello World" matches both tokens, to the end |
| MicroLanguage.GoDivTruncates | tutorial/micro-language/main.go:82-83 | Go's division: the remainder is smaller than the divisor and has the dividend's sign; the quotient's sign is the product of signs |
| MicroLanguage.GoDivOfNegative | tutorial/micro-language/main.go:83 | -7 / 2 is -3 in Go, where Euclidean division gives -4 |
| MicroLanguage.Print | tutorial/micro-language/main.go:51-59 | the printed text of a tree is non-empty |
| MicroLanguage.OperatorsDistinct | tutorial/micro-language/main.go:38 | the four operators are different texts |
| MicroLanguage.OperatorReads | tutorial/micro-language/main.go:38 | the operator choice on one of the four operators: that operator, one byte on |
| MicroLanguage.OperandRejectsOpen | tutorial/micro-language/main.go:41-47 | the integer alternative fails on '(' without moving |
| MicroLanguage.PrintedParts | tutorial/micro-language/main.go:51-59 | a printed operation is "(", its one-byte operator, " ", operand, " ", operand, ")" |
| MicroLanguage.PrintedBytes | tutorial/micro-language/main.go:51-59 | the fixed bytes of a printed operation sit at positions 0, 1, 2, 3+a and 4+a+b |
| MicroLanguage.Stages | tutorial/micro-language/main.go:51-59 | the eight states an operation's seven parts pass through |
| MicroLanguage.OperationChained | tutorial/micro-language/main.go:51-59 | with both operands read, every part succeeds on the state before it |
| MicroLanguage.OperationResults | tutorial/micro-language/main.go:59-67 | the mapper picks the operator and operands at positions 1, 3 and 5 |
| MicroLanguage.OperationParserReads | tutorial/micro-language/main.go:51-68 | the operation parser on a framed operation builds the Operation node after ")" |
| MicroLanguage.OperationReads | tutorial/micro-language/main.go:36 | the forward-declared `operation` runs the operation parser |
| MicroLanguage.ExprOperand | tutorial/micro-language/main.go:40-47 | `expr` on an integer's text: the Operand node |
| MicroLanguage.ExprOperation | tutorial/micro-language/main.go:40-49 | `expr` on '(': the integer alternative fails and `operation` decides |
| MicroLanguage.ExprReadsPrinted | tutorial/micro-language/main.go:34-71 | `expr` reads back the printed text of every tree, with enough fuel, into that tree |
| MicroLanguage.InterpreterEvaluatesPrinted | tutorial/micro-language/main.go:15-20 | the interpreter on a printed tree with no division by zero gives the tree's value |
| MicroLanguage.Interpreter | tutorial/micro-language/main.go:15-20 | a failed parse evaluates to 0; a successful parse yields a tree, whose value is given exactly when no division in it is by zero; an operation's value is an int64 |
| MicroLanguage.ParsedIsTree | tutorial/micro-language/main.go:15-17 | whatever `expr` parses successfully from the start of an input is a tree |
| MicroLanguage.ExprYieldsTree | tutorial/micro-language/main.go:34-71 | the converse of reading back: every successful `expr`, from any state, yields a tree of operands and operations over the four operators |
| MicroLanguage.OperatorRejects | tutorial/micro-language/main.go:38 | the operator choice at the end of input, or on a byte that is no operator, fails at the cursor with no alternative |
| MicroLanguage.OperatorYields | tutorial/micro-language/main.go:38 | whatever the operator choice reads is one of the four operators |
| MicroLanguage.OperandAlternativeYields | tutorial/micro-language/main.go:41-47 | the integer alternative, on success, yields an Operand |
| MicroLanguage.Evaluate | tutorial/micro-language/main.go:73-91 | an operand is its value, an operation's value is an int64, any other node is 0 |
| MicroLanguage.Wrap64 | tutorial/micro-language/main.go:31 | Go's int arithmetic wraps: the one int64 value congruent to the exact result modulo 2^64, unchanged inside the range |
| MicroLanguage.EvaluateWraps | tutorial/micro-language/main.go:79-85 | 2^32 * 2^32 is 0, the largest int64 plus one is the smallest, the smallest divided by -1 is itself |
| MicroLanguage.ExampleShape | tutorial/micro-language/main.go:10 | the program's tree has no division by zero and evaluates to 34, since Go's 50 / 3 is 16 |
| MicroLanguage.ExampleText | tutorial/micro-language/main.go:10 | the program's tree prints as its input |
| MicroLanguage.ExampleEvaluates | tutorial/micro-language/main.go:10-12 | the program's input "(+ (* 10 2) (- (/ 50 3) 2))" evaluates to 34 |
| Formula.ParseFormula | tutorial/errors/parsers.go:52-60 | under either binding of `expression`: the tree with no error, or nil with the error, whenever the parse finishes |
| Formula.FormulaSpansInput | tutorial/errors/parsers.go:163-170 | formula succeeds exactly when expression spans the whole input, with its tree; otherwise it fails at cursor 0 |
| Formula.FormulaOfResult | tutorial/errors/parsers.go:163-170 | an expression outcome held against the end of input |
| Formula.FormulaWithoutResult | tutorial/errors/parsers.go:163-170 | an expression that runs out of fuel gives no outcome |
| Formula.ParseFormulaSpans | tutorial/errors/parsers.go:52-60 | Parse, under any binding of `expression`: the bound expression's tree when it spans the input, else its failure |
| Formula.WhitespaceSkipped | tutorial/errors/parsers.go:112 | whitespace never fails: it moves past the run of whitespace bytes and returns them one string each |
| Formula.BlankByte | tutorial/errors/parsers.go:112 | Cond(IsWhitespace) on bytes: one whitespace byte, or a failure at the cursor |
| Formula.BlankRepeat | tutorial/errors/parsers.go:112 | the loop collects the whitespace bytes at the cursor and stops after the last |
| Formula.BlankEndIsRun | tutorial/errors/parsers.go:112 | the whitespace run ends where BlankEnd says, at a non-whitespace byte |
| Formula.Skipped | tutorial/errors/parsers.go:112 | whitespace, given fuel for the input: the state Skip names |
| Formula.OperatorReads | tutorial/errors/parsers.go:94-108 | an operator on one of its two bytes: that Operator node, one byte on; else no alternative at the cursor |
| Formula.DigitsRead | utils.go:38 | Digits alone: the run of digits, or the error of an empty run |
| Formula.RealNumberNeedsPoint | tutorial/errors/parsers.go:84-90 | realNumber needs a '.' after its digits; without it a failure at the incoming cursor |
| Formula.RealNumberWithoutDigits | utils.go:65 | without digits: the empty run's error |
| Formula.RealNumberWithoutPoint | utils.go:65 | without the point: a no-match at the end of the digits |
| Formula.NumberReadsInteger | tutorial/errors/parsers.go:92 | number on an integer's text: realNumber fails first, then intNumber gives the Number node |
| Formula.IntegerNotReal | tutorial/errors/parsers.go:84-90 | realNumber fails on an integer's text with no point |
| Formula.IntNumberReads | tutorial/errors/parsers.go:76-82 | intNumber: the Number node of the integer's value |
| Formula.NumberNeedsDigit | tutorial/errors/parsers.go:92 | number without a digit after the sign: both alternatives fail |
| Formula.ConstantReads | tutorial/errors/parsers.go:66-74 | constant on a name: the Constant node after the name |
| Formula.PhiChosen | tutorial/errors/parsers.go:66 | "phi": "pi" fails first, then "phi" is taken |
| Formula.EulerEChosen | tutorial/errors/parsers.go:66 | "e": "pi" and "phi" fail, then "e" is taken |
| Formula.ConstantNeedsName | tutorial/errors/parsers.go:66-74 | no name at the cursor: no alternative, at the cursor |
| Formula.StepNeedsOperator | tutorial/errors/parsers.go:126-131 | a step without its operator fails at the incoming cursor |
| Formula.StepOperandFails | tutorial/errors/parsers.go:126-131 | a step whose operand fails fails at the incoming cursor with that error |
| Formula.StepReads | tutorial/errors/parsers.go:126-131 | a step whose operand succeeds: the operand's state with the four results |
| Formula.BracketedReads | tutorial/errors/parsers.go:110-119 | bracketed_expression: '(', whitespace, expression, whitespace, ')', with the expression's tree |
| Formula.BracketedNeedsOpen | tutorial/errors/parsers.go:110-119 | without '(' at the cursor it fails there |
| Formula.AtomNumber | tutorial/errors/parsers.go:121 | atom on an integer's text: the Number node |
| Formula.AtomConstant | tutorial/errors/parsers.go:121 | atom on a name: the Constant node |
| Formula.AtomBracketed | tutorial/errors/parsers.go:121 | atom on '(': the bracketed expression's tree |
| Formula.AtomFails | tutorial/errors/parsers.go:121 | atom where no number, constant or '(' starts: no alternative, at the cursor |
| Formula.TermKeepsFirstStepOnly | tutorial/errors/parsers.go:134-140 | term's tree holds the first step only; later steps are dropped |
| Formula.TermOfAtom | tutorial/errors/parsers.go:134-138 | term with an empty tail is its atom unchanged |
| Formula.TermOfLoneAtom | tutorial/errors/parsers.go:134-138 | term on an atom followed by no '*' or '/' is the atom |
| Formula.TermOfStep | tutorial/errors/parsers.go:139-140 | term with one step: a Term of the two atoms and the operator |
| Formula.TermNeedsAtom | tutorial/errors/parsers.go:123-124 | term without an atom fails at the cursor with the atom's error |
| Formula.ExpressionOfTerm | tutorial/errors/parsers.go:154-158 | expression, as written or corrected, with an empty tail is its term unchanged |
| Formula.ExpressionOfLoneTerm | tutorial/errors/parsers.go:154-158 | expression, as written or corrected, on a term followed by no '+' or '-' is the term |
| Formula.AddStepReads | tutorial/errors/parsers.go:146-151 | an additive step whose term succeeds |
| Formula.StepTrees | tutorial/errors/parsers.go:134-160 | the trees the three mappers build from a first operand and one step |
| Formula.ExpressionOfStep | tutorial/errors/parsers.go:159-160 | corrected mapper: an Expression of the two terms and the operator |
| Formula.ExpressionAsWrittenOfStep | tutorial/errors/parsers.go:159-160 | mapper as written: the Expression's first operand is the list of steps, not the first term |
| Formula.ExpressionNeedsTerm | tutorial/errors/parsers.go:143-144 | expression, as written or corrected, without a term fails at the cursor with the term's error |
| FormulaExamples.ParsesInteger | tutorial/errors/testcases.go:10 | under either binding, "42" parses to the number 42 with no error |
| FormulaExamples.ParsesSum | tutorial/errors/testcases.go:9 | with the corrected mapper, "pi + 2" parses to the Expression of pi, '+' and 2 |
| FormulaExamples.ParsesSumAsWritten | tutorial/errors/parsers.go:160 | as the program binds `expression`, "pi + 2" loses pi: the first operand is the step " + 2" |
| FormulaExamples.ParsesBracketed | tutorial/errors/parsers.go:110-119 | under either binding, "(1)" parses to the number 1 |
| FormulaExamples.RejectsUnknownName | tutorial/errors/testcases.go:18 | under either binding, "po": no alternative at 0, a nil tree |
| FormulaExamples.RejectsMissingOperand | tutorial/errors/testcases.go:19 | under either binding, "1 +": the step fails, expression is the 1, and the input does not end there |
| FormulaExamples.RejectsMissingOperator | tutorial/errors/testcases.go:20 | under either binding, "1 2": the expression is the 1 and the input does not end there |
| FormulaExamples.OnePlusStepFails | tutorial/errors/parsers.go:146-151 | in "1 +" the step reads the '+' and finds no term |

## Left out

- Debug output is not modelled. This covers `Debug`, `debugLevel`, `parseDepth`, the `fmt.Printf` tracing in `NewParser`, `Consume`, `updateParserError` and `GetResultsItem`, `getParserNames`, and parc.go's printing `updateParserState`. None of it changes a returned state.
- Error messages are not modelled. An error is a kind plus the cursor it names. The text of `fmt.Errorf`, `IndexPosStr`, `String` and `InputLength` is not modelled.
- `RegExp` and the `Letter`/`Letters`/`Digit`/`Digits`/`Integer` functions of primitives.go that use it are not modelled. The model has Go's `regexp` engine nowhere; the variables of the same names in conditionals.go and utils.go are modelled instead.
- `As` is not modelled. It only renames a parser, and it is not part of the shown source. `Optional` is read as `ZeroOrOne`.
- `RealNumber`'s float value is left out. `strconv.ParseFloat` and `math.Pow10` are not modelled, so realNumber's Number node holds the parts its syntax produced. The formula tutorial's `StackData` values are not modelled either.
- Formula.FormulaGrammar: the tutorial's valid test formulas with a '.' (such as "((10. * 2) + ...") and those with two steps or a product are not worked through as lemmas. Only "42", "pi + 2", "(1)", "po", "1 +" and "1 2" are.
- Utils.Atoi: does not model `strconv.Atoi`'s clamping on overflow; integers are unbounded.
- Combinators.Run: fuel bounds every nesting and loop. `None` (fuel exhausted, or an unbound reference) has no Go counterpart, because Go would loop or recurse forever.
- Go panics are not modelled. A failed type assertion in a mapper gives `Nil` instead. Utils.GetResultsItem requires the index in range for a list result, where Go would panic. Division by zero in `evaluate` makes `MicroLanguage.Interpreter` return `None`, where Go would panic.
- Parsing.Name: the name is fixed when a parser is constructed, so a wrapper built around a forward variable before its binding keeps the empty name in its own, as in Go. Parsing.NameOf reads a bound variable's name through the grammar; a variable bound to another variable reads as empty, where Go would copy whatever that variable held at the assignment.
- MicroLanguage.Evaluate: an Operand holds the unbounded integer `Utils.Atoi` read (see Utils.Atoi), so an operand literal beyond the int64 range is not clamped; every operation's result is wrapped to int64 as Go's arithmetic does.
- Name shadowing of the parser variables is not modelled. The model has one grammar map per program, so `NewParser`'s wrapper object and the sharing of `*Parser` and `*string` references have no counterpart.
- CombinatorLaws: there is no general law for ZeroOrMore over an arbitrary chain of matches. Only the zero- and one-match cases and greediness are stated.
- examples/micro-language/main.go is not part of this model. It uses `RefSequenceOf`, which is not in the source.
- The printing `main` programs and the test harness (`TestCase`, `Ref[T]`, benchmarks) are not modelled.
- MicroLanguage.Interpreter: parses with `expr` and does not require the whole input to be read, as the Go program does. Its I/O in `main` is not modelled.

## Findings

| source | as written | input that shows it | evidently intended | confidence | as-written member | corrected member |
|---|---|---|---|---|---|---|
| tutorial/errors/parsers.go:160 | the Expression node takes `Operand_A: arr[1]`, the list of additive steps | "pi + 2": the first operand becomes the list holding the step " + 2" and pi is lost | `Operand_A: arr[0]`, the first term, as term's mapper does on line 140 | not executed | FormulaExamples.ParsesSumAsWritten | FormulaExamples.ParsesSum |
