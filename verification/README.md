# SQL-to-SOQL driver: verified model

A Dafny model of an ODBC driver that answers SQL from a Salesforce org. It follows the driver from
the text of a WHERE condition to the bytes an application finds in its buffers:

- **The WHERE compiler.** `SqlTokenizer`, `SqlParser`, `SqlPlan`, `CompileContext` and `SelectList`
  are the driver's front end; `Soql` is the target language with the reader of the mock org, which
  `SoqlReading` proves to undo the driver's spelling. `SqlMeaning` gives the SQL its meaning (the
  driver's own two-valued one: a comparison with NULL is not true, NOT is Boolean) and the SOQL the
  mock's evaluation; `SqlProof` proves that compiling keeps what the org is asked, `Fidelity` when
  that is the meaning, `Compiler` what a query then selects. `SqlPrinter` proves the parser against
  a printer, `ParsedTree` what every parsed condition is like, `Parameters` that binding equals
  writing literals inline, `ParameterTable` what the table of parameters says, and `FrontEnd` joins
  everything from the SQL text to the selected records. `Tokens` and `Grammar` say exactly which
  texts are tokens and conditions, `Spelling` how conditions can be written, `Literals` what each
  literal is sent as and `Faults` what is refused and how.
- **Numbers, dates and text.** `Numeric` (128-bit decimals by byte-wise carry and division),
  `Calendar` and `DateTime` (proleptic Gregorian days, UTC normalisation), `Utf` (UTF-8 and UTF-16)
  and `Like` (search patterns). `Decimals`, `Timestamps` and `Transcoding` say of every text what
  is made of it.
- **Fetching.** `GetData` and `Chunks` (values in chunks with a saved offset), `Cursor` (pages),
  `Fetch` (block fetch into bound columns), `Handles` (environments, connections, statements) and
  `Supply` (the cursor behind a statement). `Buffers` and `Nulls` say what stands in the
  application's memory afterwards, `Cells` what a cell is, `Protocol` what calls on handles answer.
- **Client side control.** `Metadata` (cache and batched describes), `Config` and `Settings` (connection strings)
  and `Requests` (retries and re-authentication).

Each imperative part of the driver is a method or class here, proved against a function on values;
what the driver promises is then proved about that function. A `char` stands for one byte.

Where the driver does not keep a promise the project gives the inputs and the exact condition under
which it does:

- The condition that is sent means what the SQL means unless a datetime is compared with
  milliseconds, a NULL parameter is ordered or NULL stands after LIKE (`Fidelity.TestExact`,
  `Compiler.MillisecondsLost`, `Compiler.NullOrderingParameter`, `Compiler.NullPattern`).
- The parameter table describes every hole unless a `?` before BETWEEN is compared with two
  different columns (`ParameterTable.TableDescribes`).
- A fetch that fails loses nothing only when it fails before its first record
  (`Cursor.RunsRefineFlatList`).
- Chunks split no character only when every call has room for the next one
  (`Chunks.ChunksAreWhole`).
- `Config.RoundTrip` and `DateTime.DatetimeDelivered` hold if and only if a stated condition does.

`dafny verify dfyconfig.toml` checks the project.

## Model

| member | source | states |
|---|---|---|
| FrontEnd.TextQuerySelects | src/sql_plan.cpp:122-199 | for every text a condition can be read from, and every list of records: what is sent, or decided without sending, selects exactly the records on which the parsed condition holds, in their order, if the condition meets the guard Fidelity.Exact; and in any case exactly when the org is asked about none of the records something else than the condition says |
| FrontEnd.WrittenConditionSelects | src/sql_plan.cpp:122-199 | for every condition written with any blanks and comments between its tokens (keywords in any case, names plain or in double quotes): tokenizing, parsing, compiling, filling in the bound values, reading the text with the org's grammar and evaluating it selects exactly the records on which that condition holds in the driver's two-valued reading, in their order, if it meets the guard |
| FrontEnd.TextShaped | src/sql_parser.cpp:310-391 | every condition read from any text has non-empty IN lists and parameters numbered from zero in the order of their marks |
| FrontEnd.TextTableDescribes | src/sql_plan.cpp:110-120 | for every text a condition is read from, the parameter table describes every hole of the template exactly when every `? BETWEEN lo AND hi` that is sent has columns that resolve alike |
| FrontEnd.TextParses | src/sql_parser.cpp:27-118 | every writable condition, with its keywords in any case and any blanks and comments between its tokens, is tokenized and parsed back to that condition with its parameters numbered in order, to the end of the text |
| FrontEnd.StringSurvives | src/sql_plan.cpp:235-248 | a string compared with a text column, whatever its characters, arrives unchanged through SQL quote doubling, the parser, SOQL escaping and the org's reader |
| SqlParser.TokensTerminated | src/sql_parser.cpp:116-117 | the tokenizer's lists end with End and hold it nowhere else |
| Compiler.WhereMeaning | src/sql_plan.cpp:122-199 | on every record: a constant is the meaning of the SQL; otherwise the filled text, if its spellings are in the org's grammar, can be read by it and evaluates to what the org is asked (SentMeaning: datetimes without milliseconds, a bound NULL under an ordering as a test for a value, NULL after LIKE as a pattern), which is the meaning of the SQL if the condition meets the guard; filling fails exactly when a bound value cannot be converted or is missing |
| Compiler.QuerySelects | src/sql_plan.cpp:355-374 | a query decided without the org and a query sent to it both return exactly the matching records if the condition meets the guard, and in any case exactly when what the org is asked about each of the records is what the condition says: always_empty selects none and a dropped WHERE all |
| Fidelity.ExactFaithful | src/sql_plan.cpp:122-199 | a condition whose sent tests compare no datetime with milliseconds, order no NULL and have no NULL after LIKE asks the org about every record what the SQL says of it |
| Fidelity.TestExact | src/sql_plan.cpp:148-196 | for a single comparison, LIKE or IN that is sent that guard is exact: the org is asked what the SQL says on all records if and only if the guard holds |
| Fidelity.FoldedMeans | src/sql_plan.cpp:125-166 | a condition that folds to a constant has that value on every record and for all parameters |
| Compiler.MillisecondsLost | src/sql_plan.cpp:274-279 | where the meaning is not kept: a datetime column compared with a timestamp is sent without the milliseconds, and the org selects the records of the whole second instead of those of the instant |
| Compiler.NullPattern | src/sql_plan.cpp:176-184 | NULL after LIKE, written or bound, is sent as null and read by the mock org as the pattern that spells it: the test keeps its meaning exactly on the records whose value does not match that word |
| Compiler.NullOrderingParameter | src/sql_plan.cpp:157-165 | where the meaning is not kept: a NULL parameter under an ordering is sent as null, and the org's answer agrees with the SQL meaning exactly on the records whose field is missing |
| Compiler.NullOrderingLiteral | src/sql_plan.cpp:158-161 | a NULL written there folds to false instead, which is its meaning on every record |
| Compiler.NumberTokens | tests/mock_salesforce.py:168-190 | a numeric literal is one token of the org's grammar exactly when it is written -?digits[.digits] |
| Compiler.ExponentSplits | src/sql_plan.cpp:256-263 | every number with an exponent, which the driver accepts, is no number for the org, which reads it as a number and a word |
| SqlProof.RenderAgrees | src/sql_plan.cpp:122-199 | the rendered template filled with values is, character for character and error for error, the text of the compiled condition tree with the same values bound |
| SqlProof.CompileKept | src/sql_plan.cpp:122-199 | compiling with constant folding, operand swap, NOT LIKE and NOT IN keeps, on every record, what the org is asked; it differs from the meaning of the SQL only where SentMeaning says so |
| SqlProof.LiteralKept | src/sql_plan.cpp:232-288 | the value the org reads from a literal's spelling is the value the literal stands for exactly when no milliseconds are dropped from a datetime, for every field type; otherwise it is that value without them |
| Literals.NullSent | src/sql_plan.cpp:233-233 | NULL is sent as null for a field of any type |
| Literals.NumberSent | src/sql_plan.cpp:259-266 | for a field of type int, long, double, currency or percent every literal but NULL is sent as a number exactly when its text, without the blanks around it, is a number; TRUE and FALSE as 1 and 0; and is refused with 22018 otherwise |
| Literals.FlagSent | src/sql_plan.cpp:253-258 | for a boolean field true, false, 1 and 0 are sent as truth values, in any case, and everything else refused with 22018 |
| Literals.DaySent | src/sql_plan.cpp:267-273 | for a date field the day of a text with a date, otherwise 22007 |
| Literals.MomentSent | src/sql_plan.cpp:274-280 | for a datetime field the UTC second of a text with a date, otherwise 22007 |
| Literals.ClockSent | src/sql_plan.cpp:281-285 | for a time field the time of day of a text that has one, otherwise 22007 |
| Literals.TextSent | src/sql_plan.cpp:286-286 | for a field of any type but those nine the text itself, as a string |
| Literals.LiteralAccepted | src/sql_plan.cpp:253-286 | which literals may be compared with a field of which type, and no others |
| Faults.RenderFails | src/sql_plan.cpp:110-199 | a condition compiles exactly when no test has a fault, and is otherwise refused with the first one from left to right (an unresolved column's own error, 42000 for an operand that is no value, 22018 or 22007 for a literal its column does not take); and its template is filled exactly when every parameter that is sent has a value its column takes, otherwise with the first fault (07002, 22018 or 22007) |
| Faults.CompileFails | src/sql_plan.cpp:122-199 | the same of the compiled condition: no fault or the first |
| Faults.BindFails | src/sql_plan.cpp:404-416 | the same of binding values to it: nothing is asked of a condition that folds away |
| SqlProof.DateReadable | src/sql_plan.cpp:264-286 | a date or datetime literal is in the org's grammar exactly when its UTC year is 0 to 9999 |
| SqlProof.FoldKept | src/sql_plan.cpp:86-100 | folding a comparison of two literals gives its meaning: by value for numbers, otherwise in dictionary order of the bytes, false with NULL |
| Text.TextCompareOrders | src/sql_plan.cpp:94-94 | the sign of the character-by-character comparison is the dictionary order of the two texts, zero exactly for equal ones |
| Text.EqualsInAnyCase | src/util.cpp:17-23 | two texts are equal in any case exactly when they agree letter by letter but for the case of A to Z |
| Text.TrimStrips | src/util.cpp:27-32 | what is stripped on either side is spaces, tabs and line ends, and what is left neither starts nor ends with any |
| SqlPlan.RenderSoql | src/sql_plan.cpp:404-422 | the query text is the template with every hole filled, then the smaller of the plan's limit and max_rows, then the offset; or the first error from left to right |
| SoqlReading.TreeReads | tests/mock_salesforce.py:220-308 | reading the driver's spelling of any condition tree with the org's tokenizer and parser gives that tree: full parenthesisation leaves nothing to precedence |
| SoqlReading.TreeSpells | tests/mock_salesforce.py:168-190 | the spelling of a condition tree falls into exactly its tokens, whatever text follows |
| SoqlReading.TreeParses | tests/mock_salesforce.py:246-308 | the tokens of a condition tree parse to its node and leave the tokens behind it |
| SoqlReading.QuotedReads | src/sql_plan.cpp:235-248 | a quoted string, whatever follows, is one string token of exactly its own length that unescapes to the original text |
| SoqlReading.UnescapeEscaped | tests/mock_salesforce.py:193-195 | undoing the backslash escapes gives back the text that was escaped |
| SqlTokenizer.TokenizeText | src/sql_parser.cpp:27-118 | the tokenizer's index-advancing loop yields exactly the token list of its grammar, or the same error |
| SqlTokenizer.ScanAt | src/sql_parser.cpp:52-115 | one round of the loop takes the comment or token at the index and leaves the index behind it |
| SqlTokenizer.ReadQuoted | src/sql_parser.cpp:30-43 | reads up to the closing character, doubled ones standing for themselves, or fails on unterminated text |
| SqlTokenizer.ReadEscape | src/sql_parser.cpp:85-100 | reads `{d '...'}`, `{t '...'}` and `{ts '...'}` and refuses other escapes |
| SqlTokenizer.StringReads | src/sql_parser.cpp:30-43 | a SQL literal with doubled quotes is read as the original text, whatever it contains and whatever follows but another quote |
| SqlTokenizer.SpellingReads | src/sql_parser.cpp:27-118 | a list of tokens written with any blanks, line comments and block comments after each is tokenized to that list and End |
| SqlTokenizer.GapSkipped | src/sql_parser.cpp:46-58 | blanks and comments in front of a text, however many, do not change its tokens |
| Tokens.ScanIs | src/sql_parser.cpp:46-115 | behind blanks one round of the tokenizer takes exactly the token or the comment that stands there, as characters: quotes of all four kinds with their doubling, names, numbers with exponents, escapes with blanks and in any case, every operator where it is not the start of a longer one, comments closed and unclosed; and reports an error exactly where none does |
| Tokens.TextIs | src/sql_parser.cpp:46-117 | the tokens of any text are the token or comment behind its blanks, if there is one, and then those of the rest |
| Tokens.NumberIs | src/sql_parser.cpp:60-73 | which texts are numbers, with points and with exponents whose sign or digits may be missing |
| Tokens.EscapeRead | src/sql_parser.cpp:85-103 | an escape is read whatever blanks stand in it and whatever the case of its word |
| Tokens.QuotedIs | src/sql_parser.cpp:30-43 | a quoted text is what ends with the first closing character that is not doubled |
| SqlPrinter.ParserInvertsPrinter | src/sql_parser.cpp:310-391 | in front of any tokens that cannot continue a condition, parsing a printed condition, each letter of each keyword in either case, returns exactly it (BETWEEN spelled out, AND over OR, left association, NOT nesting, parameters numbered in order) and stops there |
| Grammar.GrammarIsPrinter | src/sql_parser.cpp:310-391 | a token list is a whole condition exactly when it is one the printer can print: nothing else is accepted, neither EXISTS, subqueries, function calls, arithmetic, LIKE with ESCAPE nor unbalanced parentheses |
| Grammar.OnlyPrintedAccepted | src/sql_parser.cpp:310-391 | whatever the parser accepts in front of any tokens is a condition as it may be written, printed there, and stands for the tree the parser made |
| Grammar.TextsAccepted | src/sql_parser.cpp:122-195 | a text is read as a condition exactly when its tokens are those of one, and then as the tree that one stands for; every other text is refused with 42000 |
| Spelling.PrintSpellable | src/sql_parser.cpp:60-84 | the tokens of a condition whose names and numbers are written with their own characters can all be spelled |
| SqlParser.Parser.NextToken | src/sql_parser.cpp:197-204 | advances by one token and never past End |
| SqlParser.Parser.ReadLiteral | src/sql_parser.cpp:237-254 | reads the literal that starts here and nothing more |
| SqlParser.Parser.ReadPathTail | src/sql_parser.cpp:221-228 | reads the longest run of further path segments |
| SqlParser.Parser.ReadOperand | src/sql_parser.cpp:289-308 | follows the operand grammar, numbers a parameter, and on success has advanced |
| SqlParser.Parser.ReadList | src/sql_parser.cpp:361-362 | follows the grammar of an IN list up to its closing parenthesis |
| SqlParser.Parser.ReadTest | src/sql_parser.cpp:355-390 | follows the grammar of IN, LIKE, BETWEEN and IS NULL |
| SqlParser.Parser.ReadPredicate | src/sql_parser.cpp:337-391 | follows the predicate grammar and stands inside the token list, errors included |
| SqlParser.Parser.ReadNot | src/sql_parser.cpp:328-335 | follows the grammar of NOT |
| SqlParser.Parser.ReadAnd | src/sql_parser.cpp:319-327 | the loop over AND builds the left-associated tree of the grammar and advances |
| SqlParser.Parser.ReadOr | src/sql_parser.cpp:310-318 | the loop over OR builds the left-associated tree of the grammar and advances |
| Parameters.PreparedIsInline | src/sql_plan.cpp:404-416 | a statement prepared with marks and bound sends the same text, or folds to the same constant, as the statement with the n-th literal in place of the n-th mark, when both compile and no NULL is ordered |
| Parameters.BindingIsInline | src/sql_plan.cpp:110-120 | binding values to a compiled condition gives the text, or the error, of compiling the condition with the values substituted |
| Parameters.MarksInOrder | src/sql_parser.cpp:291-294 | replacing marks from left to right before parsing is substituting by parameter index after it: the n-th `?` receives the n-th value |
| CompileContext.Ctx.ReadValue | src/sql_plan.cpp:110-120 | yields the operand's part and notes a parameter in the table at its index |
| CompileContext.Ctx.ReadValues | src/sql_plan.cpp:190-193 | the loop over an IN list yields its parts separated by commas and notes its parameters in order |
| CompileContext.Ctx.RenderCondition | src/sql_plan.cpp:122-199 | yields the rendered condition and notes every parameter met, folded away or not, in order |
| ParsedTree.OrShaped | src/sql_parser.cpp:310-391 | from any tokens the parser yields conditions without empty IN lists whose parameters are numbered in the order of their marks, a `?` before BETWEEN standing on both sides of its pair |
| ParameterTable.TableDescribes | src/sql_plan.cpp:110-120 | of any condition so numbered the table describes every hole of the template if and only if every `? BETWEEN lo AND hi` that is sent has columns that resolve alike, which is to say if and only if no parameter stands in two holes for different columns |
| ParameterTable.SharedMark | src/sql_parser.cpp:372-382 | `? BETWEEN a AND b`, which uses one parameter for two columns, is described exactly when both columns resolve alike |
| SelectList.BuildSelect | src/sql_plan.cpp:315-353 | the loop over the select items yields their columns and the field list, or the first error |
| SelectList.AsksForItsColumns | src/sql_plan.cpp:315-370 | the query asks for every field a column reads, none twice in any spelling, and nothing else but Id when no column reads a field; a count is its plan's only column |
| SelectList.ColumnsInOrder | src/sql_plan.cpp:321-353 | a select list is refused exactly when a column does not resolve, with the error of the first such, or a count does not stand alone, with 42000; otherwise the result has the columns of its items in their order, under their aliases or own names |
| SelectList.FieldsInOrder | src/sql_plan.cpp:317-320 | the fields are asked for in the order in which the columns first read them, Id where nothing else is |
| Numeric.PutNumeric | src/convert.cpp:82-125 | the byte-wise encoder stores, for text without exponent, the sign, the scale and the 16 little-endian bytes of the scaled number, or fails with 22018 or 22003 |
| Numeric.StoredIsFloor | src/convert.cpp:102-124 | what is stored is the largest integer not above |x| * 10^scale, and truncation is reported exactly when it is below |
| Decimals.NumbersAccepted | src/convert.cpp:93-101 | a text is taken for a number exactly when it is a sign or none, digits, and perhaps a point and digits, with at least one digit; and its parts are those it is spelled with |
| Decimals.SpelledConverts | src/convert.cpp:102-124 | of a text so spelled: 22003 exactly from 2^128 on, otherwise precision 1 to 38, scale 0 to 38, sign 0 for a minus, the scaled number rounded down, and truncation told exactly when it is not whole |
| Decimals.UnspelledRefused | src/convert.cpp:97-101 | any other text is refused with 22018 |
| Numeric.MulTenAdd | src/convert.cpp:111-116 | one digit: the 128-bit value times ten plus the digit, the overflow coming back as a carry |
| Numeric.StoreDigits | src/convert.cpp:110-118 | all digits fit exactly when their value is below 2^128, and then the bytes hold it |
| Numeric.Rescale | src/convert.cpp:102-109 | cutting or padding the fraction gives the floor at the scale and reports dropped nonzero digits |
| Numeric.ReadNumeric | src/convert.cpp:353-379 | a bound numeric parameter becomes the decimal text of its bytes with the point placed by its scale |
| Numeric.DivideByTen | src/convert.cpp:360-367 | one pass divides the 128-bit value by ten, returns the remainder, and tells whether anything is left |
| Numeric.ToDecimal | src/convert.cpp:357-369 | repeated division ends and yields the shortest decimal digits of the value |
| Numeric.ReadTextDenotes | src/convert.cpp:353-379 | the parameter's text denotes val / 10^scale with its sign, negative scales included |
| Numeric.NumericRoundTrip | src/convert.cpp:82-125 | encoding the text of a numeric structure at its scale (0 to 38) gives back the same sign and bytes, without truncation |
| Calendar.CivilInvertsDays | src/util.cpp:195-214 | for every day number the date is a valid Gregorian date whose day number is that one |
| Calendar.DaysInvertCivil | src/util.cpp:195-214 | for every valid date of any year the day number gives back the date |
| Calendar.DaysCountTomorrow | src/util.cpp:195-202 | the day after a date has the next day number |
| DateTime.ParseDateTime | src/util.cpp:229-283 | the index-advancing parser accepts exactly the grammar of dates, times and offsets and returns the UTC parts |
| DateTime.ReadInt | src/util.cpp:216-227 | reads exactly that many digits as their value or leaves the index alone |
| DateTime.ReadFraction | src/util.cpp:248-257 | a fraction of any length becomes its first three digits, padded |
| DateTime.UtcKeepsInstant | src/util.cpp:273-280 | normalising an offset keeps the instant in minutes and puts hour and minute back in range |
| DateTime.ParsedInstant | src/util.cpp:229-283 | every accepted timestamp has clock and date parts in range, and with a date its minutes are the local ones minus the offset |
| Timestamps.TimestampReads | src/util.cpp:229-283 | for every date and clock in range, written with T, a blank or nothing between them, with or without seconds, with a fraction of any length, and followed by Z, nothing, or a sign with hours and perhaps minutes: the text is read as the UTC instant it names, hours and minutes east of Greenwich being subtracted and those west of it added |
| Timestamps.DayAloneReads | src/util.cpp:232-241 | a day alone is read as such, even with a T behind it |
| Timestamps.ClockAloneReads | src/util.cpp:242-272 | a time of day alone is read as it stands: without a date its offset does not count |
| Timestamps.ReadExactly | src/util.cpp:229-283 | the texts that are read are exactly these |
| Timestamps.TimestampWritten | src/util.cpp:285-300 | the printed timestamp, character by character |
| Timestamps.TimestampRefused | src/convert.cpp:258-287 | a time of day is refused for a timestamp with 07006, a text that cannot be read with 22018, which the cursor passes on as it came |
| DateTime.PrintedTimestampReads | src/util.cpp:295-300 | for years 0 to 9999 parsing a formatted timestamp returns the same parts |
| DateTime.DatetimeDelivered | src/cursor.cpp:87-97 | a datetime sent by the org reaches a timestamp buffer as its UTC instant to the millisecond exactly when it has a date and its UTC year has four digits |
| DateTime.LastMinuteLost | src/cursor.cpp:87-97 | a concrete datetime that is not delivered: 9999-12-31T23:59:00-01:00 |
| Utf.Utf8ToWide | src/util.cpp:58-92 | on arbitrary bytes the loop always advances, yields the decoded units, and never more units than bytes |
| Utf.DecodeAt | src/util.cpp:63-77 | decodes the sequence at an index, or one replacement character for one byte |
| Utf.WideToUtf8 | src/util.cpp:94-109 | encodes surrogate pairs together and stray surrogates as replacement characters |
| Utf.AppendUtf8 | src/util.cpp:39-56 | appends the UTF-8 form of a code point |
| Utf.Utf8RoundTrip | src/util.cpp:58-109 | UTF-8 survives the way through UTF-16 exactly when it is well-formed (section 3 of RFC 3629) |
| Utf.Utf16RoundTrip | src/util.cpp:58-109 | UTF-16 survives the way through UTF-8 exactly when it is well-formed (sections 2.1 and 2.2 of RFC 2781) |
| Transcoding.BytesConvert | src/util.cpp:58-92 | from bytes to code units, one sequence at a time: the units of the number its bits make, overlong forms and surrogates included, and U+FFFD alone for any byte that starts no complete sequence |
| Transcoding.UnitsConvert | src/util.cpp:94-109 | from code units to bytes: a pair gives one character, any other surrogate the bytes EF BF BD |
| Like.LikeMatch | src/util.cpp:188-190 | matches exactly when the value can be cut into one part per pattern item: any run for `%`, one byte for `_`, the byte in any case otherwise, a backslash escaping the next character |
| Like.LikeImpl | src/util.cpp:164-186 | the recursion with its loops terminates and decides the rest of the pattern against the rest of the value |
| Like.RunsCollapse | src/util.cpp:171-173 | adjacent `%` mean the same as one |
| Like.PatternsRead | src/util.cpp:164-186 | a pattern means the items it is written with, however characters among them are escaped; a backslash at the end stands for itself |
| Like.LettersMatch | src/util.cpp:164-186 | without `%` a pattern matches just the values that agree with it letter by letter, A to Z in either case, and any byte where it has `_` |
| GetData.GetValue | src/convert.cpp:145-293 | one call: its code, its indicator, the saved position, and memory that changes only by the chunk and its terminator |
| GetData.CountUnits | src/convert.cpp:174-205 | how many bytes or code units a call delivers, by the backward loop over continuation bytes or the surrogate test |
| GetData.GetText | src/convert.cpp:162-215 | the text branches write the chunk and advance or finish the position |
| GetData.ImageFits | src/convert.cpp:180-207 | nothing is written past the capacity, terminator included |
| Buffers.TextReply | src/convert.cpp:160-215 | one call for text: the indicator in bytes, two for each code unit; a chunk exactly when there is a buffer that holds the terminator; all that remains, or cut at cap, cap - 1 or cap / 2 - 1 units, or in front of the character that does not fit; truncation told exactly when something remains |
| Buffers.ChunkWritten | src/convert.cpp:180-207 | memory then holds the units in order, low byte first, and the terminator, and is otherwise as before |
| Buffers.FixedReply | src/convert.cpp:219-292 | one call for a value of a fixed size: all of it with its size as indicator, or an error, once |
| Buffers.FixedWritten | src/convert.cpp:219-292 | and its bytes are then in memory as they are, everything else as before |
| Buffers.SlotHolds | src/odbc_impl.cpp:710-715 | after a block fetch the slot of each row, as many bytes apart as the buffer is long, holds the start of its own row's text, all of it or cut where the buffer ends |
| Nulls.NullReplies | src/convert.cpp:150-158 | over every sequence of calls a column without a value answers the first call that has an indicator with success and -1, those before it with an error, those after it with NO_DATA, and never writes |
| Nulls.ValueReplies | src/convert.cpp:159-215 | a column with a value never has a negative indicator |
| Nulls.NullSlots | src/odbc_impl.cpp:711-715 | after a block fetch the indicator of a slot is -1 exactly when its cell has no value, wherever the cell was converted |
| Nulls.NullSlotKept | src/odbc_impl.cpp:710-715 | and no byte of that slot has changed |
| Chunks.Reassembles | src/odbc_impl.cpp:742-752 | for every sequence of calls, columns interleaved and capacities changing, the chunks of each column joined are a prefix of its value, and all of it once the column is done |
| Chunks.ReplyTells | src/odbc_impl.cpp:742-752 | each answer's indicator is what remained, and NO_DATA comes only when everything had been delivered |
| Chunks.ReadingFinishes | src/convert.cpp:174-188 | reading on always finishes: more calls with room than the value has units complete it |
| Chunks.ChunksAreWhole | src/convert.cpp:174-205 | of well-formed text no chunk splits a UTF-8 sequence or a surrogate pair, each chunk being well-formed itself, if and only if every call that writes has room for the character at which it finds the column; then the column always stands between two characters |
| Chunks.FourBytesSuffice | src/convert.cpp:174-205 | room for four payload bytes, or two code units, in every call is always enough |
| Chunks.TakeIsWhole8 | src/convert.cpp:175-179 | from between two characters a call delivers whole UTF-8 sequences exactly when it has room for the first of those left, or nothing is left, or it has no room at all |
| Chunks.TakeIsWhole16 | src/convert.cpp:199-205 | the same for UTF-16, where a character takes two units if it starts with a high surrogate |
| Chunks.PutUtf8 | src/util.cpp:132-145 | reports the full length, writes what fits in front of the terminator and tells whether the text was cut |
| Chunks.PutWide | src/util.cpp:147-160 | reports the full length in code units, writes what fits of the UTF-16 form in front of its terminator and tells whether the text was cut |
| Chunks.FittingIsWhole | src/util.cpp:136-141 | what is kept of well-formed text is the longest well-formed part of it that fits |
| Chunks.FittingUnitsIsWhole | src/util.cpp:152-156 | the same for UTF-16 |
| Buffers.FittingCuts | src/util.cpp:136-141 | of any text that does not fit, well-formed or not, what is kept ends in front of the last byte within the room that starts a character |
| Buffers.FittingUnitsCut | src/util.cpp:152-156 | of code units as many are kept as there is room for, but no high surrogate at the end |
| Cursor.RunsRefineFlatList | src/cursor.cpp:123-155 | over every run, with failed requests, cancelled calls and retries: the rowsets joined, with what is left, are the records of all pages cut at the limit, if and only if every fetch that fails does so before its first record |
| Cursor.FetchesArePrefix | src/cursor.cpp:123-155 | when no request fails and nothing is cancelled, no fetch fails: for any pages, empty ones included, any rowset sizes and any limit, the rowsets joined are the first records of all pages cut at the limit, as many as were asked for, and the rest is still to come |
| Cursor.RunLoses | src/cursor.cpp:134-155 | no run repeats or invents rows: what it returns and what it leaves are at most what there was, less exactly the rows read by fetches that failed |
| Cursor.EndIsStable | src/odbc_impl.cpp:686-695 | once a fetch of at least one row comes back empty every later one does, cancelled or not, and no further page is requested |
| Cursor.PagesAreNeeded | src/cursor.cpp:134-140 | over every run, going on after failed requests and cancelled calls, a page is requested only when all records seen before have been delivered and another row is allowed |
| Cursor.FailureLosesNothing | src/odbc_impl.cpp:684-690 | a fetch that fails loses nothing exactly when no record of the current page is left and it is cancelled or only empty pages arrive before the request that fails |
| Cursor.FailedPageLosesRows | src/odbc_impl.cpp:684-690 | a request that fails or is cancelled when the current page is used up loses all records of that page: they count as delivered and no rowset returns them |
| Cursor.FetchFailsWith | src/cursor.cpp:134-140 | a fetch that fails does so with HY008 when it is cancelled, otherwise with the error of the first request that fails |
| Cells.CellIs | src/cursor.cpp:144-152 | a cell is the converted value at the end of the column's whole path, each step taking the member of just that name, or else the first of that name in any case; it is missing exactly when a member on the way is missing, null or not an object; a constant column has its constant |
| Cursor.SoqlCursor.Next | src/cursor.cpp:134-155 | delivers the next record as a row of one cell per column, loading pages as needed, or the end, or the request's error |
| Cursor.SoqlCursor.Load | src/cursor.cpp:123-132 | makes a page current and knows whether it is the last |
| Cursor.VectorCursor.Next | src/cursor.cpp:111-115 | delivers the given rows in order |
| Fetch.SlotsAreIndependent | src/odbc_impl.cpp:704-715 | after any number of rows each slot of a bound column holds what its own row left there, terminator included, and all other bytes are unchanged |
| Fetch.IndicatorsAreIndependent | src/odbc_impl.cpp:711-714 | after any number of rows each indicator is what its own row reported, or what was there before |
| Fetch.WriteRow | src/odbc_impl.cpp:705-718 | one row into all bound columns, and its code |
| Fetch.WriteRows | src/odbc_impl.cpp:704-724 | all rows into all bound columns, each column's array being its own |
| Fetch.WriteStatuses | src/odbc_impl.cpp:693-723 | a status for every slot: the row's for fetched rows, NOROW exactly beyond them |
| Fetch.RowRcIsWorst | src/odbc_impl.cpp:715-718 | a row is in error exactly when a bound column of it is |
| Fetch.StatusTells | src/odbc_impl.cpp:719-724 | a row's status is an error exactly when a bound column of it is, and otherwise carries information exactly when one does |
| Fetch.OverallTells | src/odbc_impl.cpp:725-726 | the fetch is an error exactly when its only row is, and carries information exactly when some other trouble was met |
| Fetch.Combine | src/odbc_impl.cpp:719-726 | the code of the whole fetch from those of its rows |
| Fetch.Stmt.PullRows | src/odbc_impl.cpp:684-690 | the loop over the cursor fills the rowset with what the flat list says, or stops at an error |
| Fetch.Stmt.DoFetch | src/odbc_impl.cpp:680-727 | the fetched rowset, row_number as the number of rows delivered, fresh column positions, the bound memory, the statuses and the code; NO_DATA exactly when no row came |
| Fetch.Stmt.GetCell | src/odbc_impl.cpp:742-752 | errors in the code's order, otherwise one step of the column asked for, no other column's position moving |
| Handles.ReachableWellFormed | src/odbc_impl.cpp:109-192 | every state reachable by any calls, failing or not, is well formed: a connection without a session owns no statements, every live statement and connection is listed exactly once by its live owner, and positioned implies an open cursor and a non-empty rowset with one cell per column |
| Handles.FreedIsGone | src/odbc_impl.cpp:152-192 | a freed handle stays freed, is never listed again, and every call that names it is refused and changes nothing |
| Handles.CurrentRowInRange | src/odbc_impl.cpp:742-752 | in every reachable state SQLGetData's row access is in range, and is refused exactly without a current row or column |
| Handles.ApplyKeeps | src/odbc_impl.cpp:508-558 | every single call keeps the handles well formed |
| Protocol.AllocConnAnswers | src/odbc_impl.cpp:112-126 | environments and connections are allocated with the next handle, under a live parent only |
| Protocol.AllocStmtAnswers | src/odbc_impl.cpp:127-140 | a statement needs a session (08003) and starts empty, with a rowset of one row |
| Protocol.FreeEnvAnswers | src/odbc_impl.cpp:154-161 | an environment is freed exactly when no connection of it lives, otherwise HY010 |
| Protocol.FreeConnAnswers | src/odbc_impl.cpp:162-177 | a connection is freed exactly when it has no session, otherwise HY010 |
| Protocol.FreeStmtAnswers | src/odbc_impl.cpp:178-187 | a statement is freed at any time and nothing else with it |
| Protocol.SessionAnswers | src/odbc_impl.cpp:236-279 | a session is opened once (08002), with the outcome of the login; closing it (08003 without one) deletes exactly the statements of the connection |
| Protocol.PrepareAnswers | src/odbc_impl.cpp:508-514 | preparing closes the cursor, and leaves no plan when it fails |
| Protocol.ExecuteAnswers | src/odbc_impl.cpp:516-558 | executing succeeds exactly with a plan, all its parameters and, where the server is asked, its answer; with a plan the old cursor is gone in any case |
| Protocol.ExecuteFails | src/odbc_impl.cpp:516-532 | the error is that of the first parameter that is unbound (07002) or cannot be read, otherwise the server's |
| Protocol.ExecuteOpens | src/odbc_impl.cpp:533-558 | the cursor produces one row of constants, nothing, the count, or a row for each record, as the plan calls for |
| Protocol.DirectAnswers | src/odbc_impl.cpp:570-576 | SQLExecDirect is SQLPrepare and, if that succeeds, SQLExecute |
| Protocol.CatalogAnswers | src/odbc_impl.cpp:87-91 | a catalog call opens a cursor over its rows and leaves no plan; one that fails changes nothing |
| Protocol.CloseAnswers | src/odbc_impl.cpp:768-797 | SQLCloseCursor insists on a cursor (24000), SQLFreeStmt does not; both keep the plan; a rowset size of 0 is refused (HY024) |
| Protocol.FetchAnswers | src/odbc_impl.cpp:680-699 | a fetch hands over the next rows up to the first error or the rowset size, is NO_DATA exactly when none is left, and makes the rowset current exactly when it succeeds |
| Protocol.RowsInOrder | src/odbc_impl.cpp:680-699 | over any sequence of fetches, with the rowset size changing in between, the rowsets join to the rows of the cursor in order, none left out and none repeated |
| Protocol.PlanFollows | src/odbc_impl.cpp:508-576 | over any calls a statement's plan is the one last prepared, unless that failed or a catalog call came after it |
| Protocol.ExecuteNeedsPlan | src/odbc_impl.cpp:516-518 | SQLExecute is refused with HY010 after any calls that left no plan |
| Protocol.StatementsAreSeparate | src/odbc_impl.cpp:109-192 | a statement that still lives is what the calls on it made of it, whatever was called on other handles in between |
| Handles.Driver.AllocHandle | src/odbc_impl.cpp:109-150 | allocation under a live parent, refused for statements without a session |
| Handles.Driver.FreeHandle | src/odbc_impl.cpp:152-192 | freeing removes the object and its owner's entry, and is refused while connections are allocated or a session is open |
| Handles.Driver.CloseSession | src/odbc_impl.cpp:267-279 | the loop deletes exactly the connection's statements and ends the session |
| Handles.Driver.DoPrepare | src/odbc_impl.cpp:508-514 | closes the cursor and replaces the plan, or leaves none on an error |
| Handles.Driver.DoExecute | src/odbc_impl.cpp:516-558 | the loop over the parameters stops at the first that is unbound or cannot be read; otherwise the cursor the plan calls for is opened, with rows as wide as its columns; an error leaves the statement closed |
| Handles.Driver.DoFetch | src/odbc_impl.cpp:680-699 | the fetch loop over an open cursor, partial rowsets of failed fetches included |
| Supply.PullIsFetch | src/odbc_impl.cpp:684-690 | a statement's fetch over the rows and errors still to come is the page cursor's: the same rows or the same error, what is left corresponding to the cursor that is left; a partial rowset holds exactly the rows the cursor counts as delivered |
| Metadata.MetadataCache.ObjectsMeta | src/metadata.cpp:193-216 | whatever was cached, at any times and TTL, the result is the uncached one: each name resolved and described anew, in order, unknown ones left out; just the descriptions that are missing or old are asked for; it fails exactly when the last of them is asked for by itself and not answered; and the cache still stands for the server |
| Metadata.MetadataCache.Objects | src/metadata.cpp:110-130 | the sorted listing, asked for again when missing or old |
| Metadata.MetadataCache.ResolveObjectName | src/metadata.cpp:132-136 | the first listed name that equals the given one in any case |
| Metadata.MetadataCache.Remember | src/metadata.cpp:207-208 | storing the described objects keeps the cache standing for the server and adds every answered name |
| Metadata.ListingSorted | src/metadata.cpp:121-123 | the listing is sorted by name without regard to case and holds the server's names, each as often as the server gives it |
| Metadata.ResolveIsFirst | src/metadata.cpp:132-136 | a name resolves to the first listed one that equals it in any case |
| Metadata.CanonicalKept | src/metadata.cpp:194-199 | every listed name among those asked for has its place in the result, in the order and as often as it was given |
| Metadata.StaleAt | src/metadata.cpp:201-205 | at a time the names asked for again are exactly those without an entry younger than the TTL |
| Metadata.MetadataCache.Missing | src/metadata.cpp:201-205 | the loop over the names finds those without a fresh entry |
| Metadata.AllAnswered | src/metadata.cpp:210-215 | when every listed object can be described each known name gives exactly one result |
| Metadata.DescribeMany | src/salesforce.cpp:283-303 | asks in the order of the batches and returns the answered names in order, failing exactly when the last batch is a single name that is not answered |
| Metadata.BatchesCover | src/salesforce.cpp:285-294 | every missing name is asked for once, in order, in groups of 1 to 25, all but the last full |
| Metadata.RequestsAre | src/salesforce.cpp:287-294 | a group of one is described by itself, any other in one batch |
| Metadata.ParseDescribe | src/metadata.cpp:138-173 | the loop over the described fields skips compound ones, numbers the others and indexes them by lower-case name |
| Metadata.FieldsKept | src/metadata.cpp:144-173 | the fields are those described that are neither addresses nor locations, in the order of the description, numbered from 1 |
| Metadata.IndexIsSearch | src/metadata.cpp:5-8 | the lower-case index agrees with a linear search in any case, for every name, exactly when no two fields share a name ignoring case |
| Config.RoundTrip | src/config.cpp:29-59 | for every string: printing the settings read from it and reading them again gives the same settings without AccessToken exactly when no value that is written without quotes starts or ends with tab, CR or LF |
| Config.TabIsLost | src/config.cpp:94-99 | a concrete setting that is not read back |
| Config.ParseSettings | src/config.cpp:29-59 | the index-advancing parser reads exactly the settings of its grammar |
| Settings.EveryString | src/config.cpp:29-59 | every string is a list of settings, written with any gaps, blanks, braces and what stands behind them, and the value kept under a key is what the last setting for it says, whatever its spelling |
| Settings.LastWins | src/config.cpp:29-59 | and of settings written in any of these ways the last for a key is kept |
| Config.KeyMeans | src/config.cpp:12-19 | UID and User mean Username, PWD Password, a known name itself in any case, and any other key itself |
| Config.AssignGets | src/config.cpp:56-56 | an assignment sets its key, whatever its case, and no other |
| Config.QuoteIs | src/config.cpp:94-99 | a value is written as it stands exactly when it has no semicolon, brace, equals sign or blank |
| Config.ReadBraced | src/config.cpp:40-47 | reads a braced value, doubled braces standing for one |
| Config.QuoteValue | src/config.cpp:94-99 | writes a value in braces with closing braces doubled exactly when it holds a delimiter or blank |
| Config.ToConnectionString | src/config.cpp:101-108 | writes every setting but AccessToken in key order |
| Config.SettingsGood | src/config.cpp:12-19 | reading keeps the settings sorted without regard to case, each under one canonical key that can be written and read again |
| Requests.Client.Send | src/salesforce.cpp:217-272 | the loop does what its step function says for every sequence of responses, and ends |
| Requests.RequestEnds | src/salesforce.cpp:225-271 | for every sequence of responses: at most one login, at most max_retries waits, at most max_retries + 2 sends, no wait above 30250 ms unless Retry-After asks for it, and a success returns the body of the last response |
| Requests.RequestSends | src/salesforce.cpp:217-272 | after every send of every run: the request goes on exactly when the response asks for patience (a transport failure that may pass, 429, 502, 503 or 504) and retries are left, or it is the first 401 and a login succeeds; the wait is what Retry-After asks for, or doubles from 500 ms to 30 s; and the result is that of the last response |
| Requests.NewTokenAfterLogin | src/salesforce.cpp:256-262 | every send after the login carries the new token and every one before it the old |
| Requests.WaitBound | src/salesforce.cpp:230-235 | a wait lasts 500 to 30250 ms, or the seconds of a positive Retry-After and at most 250 ms more |

## Left out

- Compiler.WhereMeaning: asks that the bound values are spelled in the org's grammar (numbers without exponent, years 0 to 9999, field names that are words); NumberTokens, ExponentSplits and DateReadable say what happens otherwise. For a whole condition the guard Exact is sufficient; it is exact for each single test (TestExact), while AND and OR may hide a test that fails it.
- SqlProof.LiteralKept: the meaning of a literal depends on the type of its field: compared with a date field a timestamp stands for its day, so its time of day does not count, and compared with a time field for its time of day; digits of a fraction beyond the third are dropped when the literal is read.
- FrontEnd.WrittenConditionSelects: of the ways to write a condition it covers every layout and keywords in any case, but names plain or in double quotes only; TextQuerySelects holds for every text, of the condition that is read from it, and Tokens.ScanIs and Grammar.TextsAccepted say which that is.
- Compiler.QuerySelects: row queries only; `SELECT COUNT(*)` with a condition folded to false returns no row at all instead of a row holding 0 (src/odbc_impl.cpp:539).
- GetData.GetValue: numeric, date and other fixed-size conversions are a function of the value that yields an image of the type's size; put_numeric and the timestamp conversion are modelled on their own in Numeric and DateTime.
- Fetch.Stmt.GetCell: asks that the saved offset is not past the end of the value in the units of the C type asked for; it is never past it while a column is read in one C type, and may be when the type changes in the middle of a value, where the driver computes a negative remainder.
- Fetch.Stmt.DoFetch: column-wise binding to separate arrays over a paged cursor; row-wise binding, overlapping buffers, cursors over rows known in advance and the bind offset (a shift of every address) are not modelled.
- Handles.ReachableWellFormed: handles are never reused, a catalog result is taken to be as wide as its columns, and `build_plan` enters as its outcome.
- Metadata.MetadataCache.ObjectsMeta: the server's answers do not change, and objects whose names differ only in case are listed in a fixed order where `std::sort` leaves it open.
- Numeric.PutNumeric: text with an exponent goes through the C library's number reader and printer, a parameter here; so do numeric comparisons when two literals are folded.
- DateTime.DatetimeDelivered: 64-bit day counts are unbounded integers here, and the year is not cut to the 16 bits of SQL_TIMESTAMP_STRUCT, which only matters outside the years that are delivered.
- Requests.Client.Send: the login itself (OAuth flows, JWT signing) is one answer of the oracle, and 64-bit overflow of a huge Retry-After is not modelled.
- SqlPrinter.ParserInvertsPrinter: bare names that the parser takes for literals or keywords (NULL, TRUE, FALSE, SELECT, and NOT and EXISTS where a predicate starts) have to be quoted, as in SQL; Grammar.GrammarIsPrinter shows that nothing else is lost; the rest of a SELECT statement (TOP, ORDER BY, LIMIT, aliases) is not parsed here.
- Name resolution over relationships (`resolve`, src/sql_plan.cpp:35-71) is a parameter: a function from paths to SOQL paths and field types, or an error.
- The mock org's WHERE reader moves an index through a token list; here its functions pass on the tokens that are left. How the mock splits a whole query into clauses, and its refusals by field type, are not modelled; Python's Unicode classes for `\s` and `\d` are taken as ASCII, and its reading of a null inside IN on a text field as the word "none" as a null.
- Error messages and token positions, logging, DSN and registry lookup, transport, TLS, JSON parsing, attribute getters and setters, catalog row builders, type tables and exported entry points.
- Threads and locks: calls are sequential steps; Cancel is a flag set between them.
- SQLWCHAR is two bytes wide; the branch for four-byte code units (src/util.cpp:63-109 and :152, src/convert.cpp:199) is not modelled.
- `COUNT` totals, SQL_ATTR_ROW_NUMBER and diagnostics beyond the returned code.
