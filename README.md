# CSL: a verified model of the lexer, parser, formatter, JSON library, documentation planner and language server

CSL (Config Schema Language) describes the shape of configuration files: a
schema names a `config` and lists its keys with types, defaults,
annotations and a `constraints` block. The C++ implementation lexes CSL
text into tokens, parses the tokens into schemas while checking them,
prints schemas back as CSL, plans HTML documentation pages for them, and
serves editors through a Language Server Protocol (LSP 3.17) server that
speaks JSON-RPC 2.0 through its own JSON library.

This project models that core in Dafny and proves what it promises:

- literal kinds (`literal_types.dfy`): the names of the literal kinds and subtypes, cloning, and the subtype setters;
- the token list (`tokens.dfy`): buffering a token character by character, flushing, size, emptiness, and front/back access;
- the lexer (`utf8.dfy`, `positions.dfy`, `chars.dfy`, `lexer_*.dfy`, `lexer.dfy`):
  - end positions, digit grouping, and string content under section 3 of RFC 3629;
  - the date checks, and the recognisers with their tie rules;
  - the line loop that builds tokens, errors and warnings;
- the parser (`repr.dfy`, `parser_*.dfy`, `parser.dfy`):
  - precedence climbing, types and unions, table bodies and keys;
  - identifier resolution, and default, annotation and constraint validation;
- the formatter (`string_order.dfy`, `formatter_*.dfy`, `formatter.dfy`): quoting, key order, indentation, and the text of types, expressions and schemas;
- the JSON library (`json_*.dfy`):
  - the base-10^9 big integer and number normalisation;
  - a reader following ECMA-404 with its depth limit, and the escaping writer;
- the documentation generator (`docgen_*.dfy`, `docgen.dfy`): escaping, slugs, placeholders, page file names, depth and key counts, and the page-planning walk;
- the language server (`langsvr_*.dfy`, `langsvr.dfy`):
  - URI normalisation, semantic-token encoding and diagnostics;
  - folding ranges, and the deepest table at a position;
  - the initialize/initialized/shutdown/exit lifecycle and request routing.

Code that changes state step by step is written as classes and loop methods.
Their postconditions equate the result, and the new state, with specification
functions. The properties are proved about those functions as lemmas.
The lexer, JSON reader, parser, formatter streams, big integer, page
planner and language server are each a class. Their fields mirror the
C++ members the source updates in place.

Bytes are integers from 0 to 255. C++ `std::string` values that the
source compares character by character are `seq<char>`. Positions are
(line, column) pairs of naturals. The lexer and parser that the language
server calls are parameters of the server (`LexerFunction`,
`ParserFunction`). The properties that depend on the lexer being this
model's lexer say so in their requires.

Where the source is wrong (see "## Findings"), each defect is modelled
twice: an as-written member exhibits it and a corrected member states the
evident intent. The main lexer, parser and language server
(`LexerSpec.Lex`, `ParserSpec.ParserMain`, `LangSvrSpec.Handle` and the
classes proved equal to them) are built on the corrected halves, so they
state the intended behaviour rather than the source as written. "## Left
out" names, member by member, the as-written behaviour that these members
therefore do not capture.

## Model

| member | source | states |
|---|---|---|
| LiteralTypes.StringTypeIndex | impl/core/shared/Type.h:118-123 | the string kinds are numbered below 4 (Basic 0, MultiLineBasic 1, Raw 2, MultiLineRaw 3) |
| LiteralTypes.StringTypeNumbering | impl/core/shared/Type.h:118-123 | the numbering is a bijection between the four string kinds and 0..3 |
| LiteralTypes.MultiLineIsOdd | impl/core/shared/Type.h:118-123 | exactly the two multi-line kinds have an odd number |
| LiteralTypes.SpecialToString | impl/core/shared/Type.h:104-106 | the name is "NaN" exactly for NaN and "Infinity" otherwise |
| LiteralTypes.FromName | impl/core/shared/Type.h:26-190 | a recognised name maps back to a kind that reports that name |
| LiteralTypes.NamesIdentifyKinds | impl/core/shared/Type.h:26-190 | every kind and subtype is recovered from the name it reports |
| LiteralTypes.ToStringInjective | impl/core/shared/Type.h:26-190 | the fifteen reported names are pairwise distinct across kinds and subtypes |
| LiteralTypes.Clone | impl/core/shared/Type.h:30-190 | a clone has the same kind and subtype, hence the same name |
| LiteralTypes.SetSpecialType | impl/core/shared/Type.h:96-102 | setType on a special number changes only the subtype, which getType then returns |
| LiteralTypes.SetStringType | impl/core/shared/Type.h:128-134 | setType on a string changes only the subtype, which getType then returns |
| LiteralTypes.SetDateTimeType | impl/core/shared/Type.h:160-166 | setType on a datetime changes only the subtype, which getType then returns |
| Tokens.FlushedFacts | impl/core/shared/Token.h:71-84 | flushing an empty buffer changes nothing; otherwise exactly the buffered token is appended and content, type, prop and range are reset |
| Tokens.AddedExtends | impl/core/shared/Token.h:36-48 | adding flushes first: the buffered token, if any, precedes the added one and no token is lost |
| Tokens.AppendedFacts | impl/core/shared/Token.h:59-65 | one character is appended, the range start moves only while it is the default position, the end becomes this character's position |
| Tokens.TokenList.constructor | impl/core/shared/Token.h:24 | a new list is empty with nothing buffered |
| Tokens.TokenList.FlushBuffer | impl/core/shared/Token.h:71-84 | the new state is the flushed value of the old state, keeping the buffered-flag invariant |
| Tokens.TokenList.AddTokenToList | impl/core/shared/Token.h:36-48 | the new state is the old state flushed with the token appended after the buffered one |
| Tokens.TokenList.SetTokenInfo | impl/core/shared/Token.h:51-57 | only the buffered token's type, prop and range change |
| Tokens.TokenList.AppendBufferedToken | impl/core/shared/Token.h:59-65 | the new state is the old one with the character appended, the range grown and the buffered flag set |
| Tokens.TokenList.IsTokenBuffered | impl/core/shared/Token.h:67-69 | the flag holds exactly while one token is pending in the buffer |
| Tokens.TokenList.Clear | impl/core/shared/Token.h:132-135 | flushes and then leaves no tokens, so the size becomes 0 |
| Tokens.TokenList.Size | impl/core/shared/Token.h:137-139 | the list length plus one while a token is buffered, which is the length of the flushed contents |
| Tokens.TokenList.Empty | impl/core/shared/Token.h:141-143 | holds exactly when the list is empty and nothing is buffered |
| Tokens.TokenList.Front | impl/core/shared/Token.h:159-171 | fails with the source's message exactly while a token is buffered, otherwise returns the first token |
| Tokens.TokenList.Back | impl/core/shared/Token.h:173-185 | fails with the source's message exactly while a token is buffered, otherwise returns the last token |
| Tokens.OriginStartIsOverwritten | impl/core/shared/Token.h:62 | a token whose first character sits at (0,0) gets its start moved to its second character, since (0,0) is the default position |
| Utf8.LeadDecodeMatchesSyntax | impl/core/lexer/CslLexer.cpp:123-180 | the validator's lead-byte classification, continuation, overlong, surrogate and range checks accept exactly the UTF8-char byte ranges of RFC 3629, and only scalar values |
| Utf8.DecodedAreScalars | impl/core/lexer/CslLexer.cpp:155-173 | no accepted sequence decodes to a surrogate or to a value above U+10FFFF |
| Utf8.EncodeDecode | impl/core/shared/JsonIO.hpp:847-865 | encoding one scalar value gives one well-formed UTF-8 character that decodes back to it |
| Utf8.DecodeConcat | impl/core/lexer/CslLexer.cpp:125-202 | well-formed byte strings concatenate to a well-formed one, decoded piecewise |
| Utf8.EncodeAllDecode | impl/core/shared/JsonIO.hpp:847-865 | decoding inverts encoding for every sequence of scalar values |
| LexerHelpers.GetEndPosition | impl/core/lexer/CslLexer.cpp:21-36 | the loop's result is EndPosition: one column per character, line+1 and column 0 per newline |
| LexerHelpers.EndPositionConcat | impl/core/lexer/CslLexer.cpp:21-36 | walking over a+b ends where walking over b from the end of a ends |
| LexerHelpers.EndPositionOnOneLine | impl/core/lexer/CslLexer.cpp:21-36 | text without newlines ends on the start line at start column + length |
| LexerHelpers.EndPositionAfterNewline | impl/core/lexer/CslLexer.cpp:26-29 | after the last newline the column is the length of what follows it |
| LexerHelpers.EndPositionLine | impl/core/lexer/CslLexer.cpp:26-28 | the end line is the start line plus the number of newlines |
| LexerHelpers.SplitJoin | impl/core/lexer/CslLexer.cpp:53-62 | splitting at underscores loses nothing: joining the parts gives the text back, and no part holds an underscore |
| LexerHelpers.SplitOfJoin | impl/core/lexer/CslLexer.cpp:53-62 | splitting inverts joining for underscore-free parts |
| LexerHelpers.SplitSizes | impl/core/lexer/CslLexer.cpp:53-62 | the split loop fails exactly on an empty group before an underscore, and otherwise yields the sizes of the parts |
| LexerHelpers.AllSameFromSecond | impl/core/lexer/CslLexer.cpp:65-72 | holds exactly when every group from the second on has the size of the second |
| LexerHelpers.CheckIntegerGroups | impl/core/lexer/CslLexer.cpp:64-90 | the integer rule: one group, or uniform sizes from the second group other than 1, or middle groups of 2 and a last group of 3 |
| LexerHelpers.CheckFractionGroups | impl/core/lexer/CslLexer.cpp:105-120 | the fraction rule: one group, or uniform sizes from the second group other than 1 |
| LexerHelpers.IsNumberReasonablyGrouped | impl/core/lexer/CslLexer.cpp:38-121 | the method decides ReasonablyGrouped: sign and radix prefix stripped, integer and fraction parts checked by their rules |
| LexerHelpers.NoUnderscoreIsGrouped | impl/core/lexer/CslLexer.cpp:105 | a number with no underscore always passes |
| LexerHelpers.IntegerRuleIgnoresFirstGroup | impl/core/lexer/CslLexer.cpp:67-86 | the size of the first integer group never matters |
| LexerHelpers.EmptyInnerGroupRefused | impl/core/lexer/CslLexer.cpp:56 | an empty group before an underscore (as in 1__000) is refused |
| LexerHelpers.PlainInteger | impl/core/lexer/CslLexer.cpp:38-47 | an unsigned decimal integer without a dot is judged by the integer rule alone |
| LexerHelpers.GroupedJoin | impl/core/lexer/CslLexer.cpp:49-90 | a part built from groups is judged on the sizes of those groups |
| LexerHelpers.GroupedIntegerExample | impl/core/lexer/CslLexer.cpp:80-88 | 12_345_678 passes |
| LexerHelpers.IndianGroupingExample | impl/core/lexer/CslLexer.cpp:80-88 | 1_23_45_678 passes through the two-tier rule |
| LexerHelpers.SingleDigitGroupsRefused | impl/core/lexer/CslLexer.cpp:73-76 | 1_2_3 is refused |
| LexerHelpers.DoubleUnderscoreRefused | impl/core/lexer/CslLexer.cpp:56 | 1__000 is refused |
| LexerContent.IsStringContentValidAsWritten | impl/core/lexer/CslLexer.cpp:123-205 | the validator as written decides ContentValidAsWritten: well-formed UTF-8, the kind's control characters refused, and every CR in a multi-line string refused |
| LexerContent.IsStringContentValid | impl/core/lexer/CslLexer.cpp:123-205 | the corrected validator decides ContentValid: as written, except that a CR directly followed by LF is admitted in the multi-line kinds |
| LexerContent.ValidContentIsUtf8 | impl/core/lexer/CslLexer.cpp:123-180 | both validators refuse every byte string that is not well-formed UTF-8 (truncated, bad continuation, overlong, surrogate, above U+10FFFF, bad lead byte) |
| LexerContent.TabAndLineFeed | impl/core/lexer/CslLexer.cpp:181-199 | tab is admitted in every kind; line feed exactly in the two multi-line kinds |
| LexerContent.CrLfInMultiLineString | impl/core/lexer/CslLexer.cpp:195-196 | CR LF in a multi-line basic string is refused as written and admitted by the corrected check |
| LexerContent.AsWrittenDiffersOnlyOnCr | impl/core/lexer/CslLexer.cpp:181-199 | on text without a CR the two validators agree |
| LexerContent.ContentValidStep | impl/core/lexer/CslLexer.cpp:125-202 | the validity of a suffix is decided by its first code point and the validity of the rest (the loop invariant) |
| LexerContent.CustomGetline | impl/core/lexer/CslLexer.cpp:207-226 | the loop reads exactly ReadLine: up to the next newline, a CR before it dropped, false only at the end of the input |
| LexerContent.ReadLineReconstructs | impl/core/lexer/CslLexer.cpp:207-226 | the line read plus "\n" or "\r\n" (or nothing at the end) is exactly the consumed input, and holds no newline |
| LexerContent.LeapDay | impl/core/lexer/CslLexer.cpp:287-324 | YYYY-02-29 is a valid date exactly when the year is at least 1 and a Gregorian leap year |
| LexerContent.CalendarYear | impl/core/lexer/CslLexer.cpp:318-319 | the month table sums to 365 days, or 366 in leap years |
| LexerContent.LeapYearCycle | impl/core/lexer/CslLexer.cpp:287-289 | the leap-year rule repeats every 400 years |
| LexerRecognizers.LeadingSpaceIsMaximal | impl/core/lexer/CslLexer.cpp:263-267 | the `\s*` group is all white space and cannot be extended |
| LexerRecognizers.FirstHitIsLongest | impl/core/lexer/CslLexer.cpp:488-490 | in a word list sorted longest first the first word found is the longest one found |
| LexerRecognizers.ParseKeyword | impl/core/lexer/CslLexer.cpp:440-450 | a match is a keyword not followed by a word character or '-', and there is no match exactly when no keyword is there |
| LexerRecognizers.ParseType | impl/core/lexer/CslLexer.cpp:452-462 | a match is a built-in type name not followed by a word character or '-', and none exactly when no type name is there |
| LexerRecognizers.ParsePunctuator | impl/core/lexer/CslLexer.cpp:531-541 | a match is one of the punctuators, and none exactly when no punctuator starts there |
| LexerRecognizers.ParseOperator | impl/core/lexer/CslLexer.cpp:464-508 | the match is the longest operator starting after the white space, and none exactly when no operator starts there |
| LexerRecognizers.LongerListFirst | impl/core/lexer/CslLexer.cpp:488-498 | trying all two-character operators before the one-character ones yields the longest operator |
| LexerRecognizers.ParseBooleanLiteral | impl/core/lexer/CslLexer.cpp:426-438 | a match is "true" or "false", typed Boolean, not followed by a word character or '-' |
| LexerRecognizers.ParseComment | impl/core/lexer/CslLexer.cpp:260-270 | a match exactly when "//" follows the white space; it runs to the end of the line and holds no newline |
| LexerRecognizers.StringKind | impl/core/lexer/CslLexer.cpp:281 | raw exactly when the literal starts with R, multi-line exactly when it holds a newline |
| LexerRecognizers.ParseStringLiteral | impl/core/lexer/CslLexer.cpp:272-284 | a match is a basic or raw string ending in '"', typed by its R and by whether it holds a newline |
| LexerRecognizers.LazyClose | impl/core/lexer/CslLexer.cpp:276 | the lazy raw body ends at the first closing `)delim"`, crossing no carriage return |
| LexerRecognizers.ParseIdentifierAsWritten | impl/core/lexer/CslLexer.cpp:510-529 | the bare form is tried first: a match is a bare identifier covering the whole word run, or a backtick-quoted one, and never a bare true/false |
| LexerRecognizers.ParseIdentifier | impl/core/lexer/CslLexer.cpp:510-529 | corrected recogniser: a raw quoted identifier is matched whole; everywhere else it agrees with the source's recogniser |
| LexerRecognizers.BooleanIsNotIdentifier | impl/core/lexer/CslLexer.cpp:519-522 | a bare true/false is never an identifier and is the boolean literal |
| LexerRecognizers.RawQuotedIdentifierIsSplit | impl/core/lexer/CslLexer.cpp:513-527 | on R`a(b)a` the source's recogniser yields just "R", the corrected one the whole quoted identifier |
| LexerRecognizers.ParseDateTimeLiteral | impl/core/lexer/CslLexer.cpp:326-351 | the forms are tried offset > local date-time > local date > local time; the first three need a valid calendar date, a local time only arises without one |
| LexerRecognizers.DateAndTimeExclusive | impl/core/lexer/CslLexer.cpp:329-332 | a date and a time of day never start at the same place |
| LexerRecognizers.DateFields | impl/core/lexer/CslLexer.cpp:305-313 | a matched date has digits in its month and day fields, so reading them as numbers is defined |
| LexerRecognizers.ParseDurationLiteral | impl/core/lexer/CslLexer.cpp:353-378 | a match is typed Duration, starts with P or a digit, and exists exactly when one of the three forms is there |
| LexerRecognizers.MinutesShorthand | impl/core/lexer/CslLexer.cpp:360 | "5min" matches the duration "5m", leaving "in" behind |
| LexerRecognizers.FloatCoversInteger | impl/core/lexer/CslLexer.cpp:384-385 | the float pattern matches exactly where a decimal integer does, and never where no integer does |
| LexerRecognizers.NumericCandidate | impl/core/lexer/CslLexer.cpp:380-412 | nan/inf are tried first; otherwise the longer of the integer and float matches wins and a tie goes to Integer |
| LexerRecognizers.NumberNeverDiscarded | impl/core/lexer/CslLexer.cpp:413-422 | the identifier comparison never discards a numeric match |
| LexerRecognizers.NumberOutrunsIdentifier | impl/core/lexer/CslLexer.cpp:416-417 | an identifier at the same place is never longer than the numeric candidate |
| LexerRecognizers.NumberNeverSigned | impl/core/lexer/CslLexer.cpp:678-680 | a number token never starts with a sign, so the signed-prefix error cannot fire |
| LexerRecognizers.FractionIsFloat | impl/core/lexer/CslLexer.cpp:403-410 | 1.5 is a Float |
| LexerRecognizers.TieIsInteger | impl/core/lexer/CslLexer.cpp:403-406 | 15 is an Integer: both patterns match equally long and the tie goes to Integer |
| LexerRecognizers.HexIsInteger | impl/core/lexer/CslLexer.cpp:384-406 | 0x1F is an Integer |
| LexerSpec.AfterHashFacts | impl/core/lexer/CslLexer.cpp:615 | the validated comment text is what follows the first '#', or the whole comment when there is none |
| LexerSpec.Consume | impl/core/lexer/CslLexer.cpp:613-614 | erasing the lexeme keeps the overall end position: walking the rest from the new position ends where the old code ended |
| LexerSpec.TokenStep | impl/core/lexer/CslLexer.cpp:641-648 | a recognised lexeme becomes one token after the buffered one, with its region, and the position moves to its end |
| LexerSpec.RawDelimiterCheck | impl/core/lexer/CslLexer.cpp:586-602 | one error exactly when a raw quoted identifier's delimiter is longer than 16; nothing is consumed |
| LexerSpec.ContentErrors | impl/core/lexer/CslLexer.cpp:632-634 | one error exactly when the content is not valid for its string kind |
| LexerSpec.GroupingWarnings | impl/core/lexer/CslLexer.cpp:681-683 | one warning exactly when the number is not reasonably grouped |
| LexerSpec.SignErrors | impl/core/lexer/CslLexer.cpp:678-680 | one error exactly when a sign precedes a 0b/0o/0x prefix |
| LexerSpec.LeftoverStep | impl/core/lexer/CslLexer.cpp:763-769 | a leftover delimiter character and backquote are reported at the position and skipped |
| LexerSpec.CommentStepReports | impl/core/lexer/CslLexer.cpp:604-620 | a comment becomes a token only when comments are preserved, and invalid content gives one error |
| LexerSpec.StringStepReports | impl/core/lexer/CslLexer.cpp:622-637 | a string becomes one token, with one error when its content is invalid for its kind |
| LexerSpec.DurationStepReports | impl/core/lexer/CslLexer.cpp:652-667 | a duration becomes one token, with one error exactly when a letter follows it |
| LexerSpec.NumberStepReports | impl/core/lexer/CslLexer.cpp:669-686 | a number becomes one token, with the signed-prefix error and the grouping warning |
| LexerSpec.QuotedIdentifierStepReports | impl/core/lexer/CslLexer.cpp:759-771 | a quoted identifier becomes one unquoted token, and a leftover delimiter is reported and skipped |
| LexerSpec.UnknownStepReports | impl/core/lexer/CslLexer.cpp:788-800 | an unmatched character is appended to the buffered token, typed "unknown" when it starts one |
| LexerSpec.Classify | impl/core/lexer/CslLexer.cpp:603-779 | the chosen category fits the code: the first of the fixed priority order that matches |
| LexerSpec.Run | impl/core/lexer/CslLexer.cpp:584-801 | the category loop uses up the code, ends at its end position, and only appends tokens, errors and warnings |
| LexerSpec.SpaceAddsNothing | impl/core/lexer/CslLexer.cpp:781-786 | code that is all white space is consumed and adds nothing |
| LexerSpec.UnknownCharactersJoin | impl/core/lexer/CslLexer.cpp:789-792 | while a token is buffered a further unknown character extends it instead of starting a new one |
| LexerSpec.LexChunk | impl/core/lexer/CslLexer.cpp:584-804 | after the category loop the buffer is flushed and the position is column 0 of the next line |
| LexerSpec.LineStep | impl/core/lexer/CslLexer.cpp:554-805 | one round of the line loop reads forward and only appends tokens and diagnostics |
| LexerSpec.LinesExtend | impl/core/lexer/CslLexer.cpp:554-805 | across the line loop tokens and diagnostics are only appended and nothing stays buffered |
| LexerSpec.OneErrorPerUnknownToken | impl/core/lexer/CslLexer.cpp:806-810 | each "unknown" token yields exactly one "Unknown token: …" error with its range, in order, and nothing else does |
| LexerSpec.LexLeavesNothingBuffered | impl/core/lexer/CslLexer.cpp:802-811 | the lexer's result holds every token; nothing is left in the buffer |
| LexerComments.LexWithoutCommentsHasNone | impl/core/lexer/CslLexer.cpp:610-612 | without preserveComment no token of type "comment" is produced |
| Lexer.ScanDelimiter | impl/core/lexer/CslLexer.cpp:590-594 | the scan stops at the first '(' or newline |
| Lexer.TokenRegion | impl/core/lexer/CslLexer.cpp:642-644 | the region runs from the end of the leading white space to the end of the lexeme |
| Lexer.Lexer.CheckRawDelimiter | impl/core/lexer/CslLexer.cpp:586-602 | appends the errors RawDelimiterCheck specifies and no warning |
| Lexer.Lexer.AcceptComment | impl/core/lexer/CslLexer.cpp:604-620 | the new list and diagnostics are those of CommentStep |
| Lexer.Lexer.AcceptString | impl/core/lexer/CslLexer.cpp:622-637 | the new list and diagnostics are those of StringStep |
| Lexer.Lexer.AcceptDuration | impl/core/lexer/CslLexer.cpp:652-667 | the new list and diagnostics are those of DurationStep |
| Lexer.Lexer.AcceptNumber | impl/core/lexer/CslLexer.cpp:669-686 | the new list and diagnostics are those of NumberStep |
| Lexer.Lexer.AcceptIdentifier | impl/core/lexer/CslLexer.cpp:753-779 | the new list and diagnostics are those of IdentifierStep |
| Lexer.Lexer.AcceptUnknown | impl/core/lexer/CslLexer.cpp:788-800 | the new list is that of UnknownStep |
| Lexer.Lexer.LexOne | impl/core/lexer/CslLexer.cpp:585-800 | one round of the category loop is exactly Step |
| Lexer.Lexer.LexChunk | impl/core/lexer/CslLexer.cpp:584-801 | the loop over one chunk is exactly Run |
| Lexer.Lexer.ReportUnknownTokens | impl/core/lexer/CslLexer.cpp:806-810 | appends exactly UnknownErrors of the tokens |
| Lexer.Lexer.LexLine | impl/core/lexer/CslLexer.cpp:554-805 | one round of the line loop is exactly LineStep |
| Lexer.Lexer.LexBlankLine | impl/core/lexer/CslLexer.cpp:555-565 | a blank line is exactly BlankLine: a lone CR reported, the line counted, dropped unless it ends the input |
| Lexer.Lexer.LexLineBody | impl/core/lexer/CslLexer.cpp:566-583 | a non-blank line is exactly LineBody: joined to held-back code, held back while incomplete, else lexed |
| Lexer.Lexer.Lex | impl/core/lexer/CslLexer.cpp:548-812 | the tokens and warnings are those of the line loop and the errors are followed by one per unknown token |
| Lexer.LexerMain | impl/core/lexer/CslLexer.cpp:824-827 | a fresh lexer returns exactly LexerSpec.Lex's tokens, errors and warnings |
| Repr.FindKey | impl/core/parser/CslParser.cpp:110-112 | std::find_if over keys by name: the index of the first key with that name, no earlier key has it, and the end index when there is none |
| Repr.FindKeyFinds | impl/core/parser/CslParser.cpp:110-112 | keyExists holds exactly when some key has the name |
| ParserSemantics.IdentifierFrom | impl/core/parser/CslParser.cpp:291-296 | the scan from index i finds the first identifier token whose range is the region, and none before it; no result means there is none from i on |
| ParserSemantics.IdentifierIndex | impl/core/parser/CslParser.cpp:290-297 | getIdentifierTokenIndexFromRegion: the first identifier token whose start and end equal the region's, none before it; "none" (size_t -1) exactly when no identifier token has that range |
| ParserSemantics.FirstTable | impl/core/parser/CslParser.cpp:304-311 | the first table member of a union: a table from the union, and none exactly when no member is a table |
| ParserSemantics.TableOf | impl/core/parser/CslParser.cpp:299-328 | getTableTypeFromCSLType: a table is itself, a union gives its first table, an array gives its table element or the first table of its union element, anything else gives none; a result is always a table |
| ParserSemantics.ResolveTable | impl/core/parser/CslParser.cpp:330-358 | resolveTableTypeFromExpr: only an identifier or a '.' lookup with an identifier property resolves, and always to a table |
| ParserSemantics.MapToken | impl/core/parser/CslParser.cpp:366-369 | the identifier's token index, when found, is set to the key; otherwise the mapping is unchanged |
| ParserSemantics.CheckConstraints | impl/core/parser/CslParser.cpp:109-288 | validateConstraintsSemantics only adds errors: position and mapping are unchanged |
| ParserSemantics.MapTypes | impl/core/parser/CslParser.cpp:453-456 | mapping the members of a union leaves the token position alone |
| ParserSemantics.MapType | impl/core/parser/CslParser.cpp:440-471 | mapIdentifiersInType leaves the token position alone |
| ParserSemantics.MapKeys | impl/core/parser/CslParser.cpp:462-465 | the loop over a nested table's keys leaves the token position alone |
| ParserSemantics.CloseKey | impl/core/parser/CslParser.cpp:637-642 | mapping, annotation and default checks of one key leave the token position alone |
| ParserSemantics.CloseKeys | impl/core/parser/CslParser.cpp:637-642 | the loop over a table's keys leaves the token position alone |
| ParserSemantics.CloseTable | impl/core/parser/CslParser.cpp:634-642 | the semantic passes over a finished table leave the token position alone |
| ParserSpec.Advance | impl/core/parser/CslParser.cpp:500-507 | advance never touches the token-to-declaration mapping |
| ParserSpec.Expect | impl/core/parser/CslParser.cpp:509-516 | expect never moves the position and never touches the mapping |
| ParserSpec.ExpectType | impl/core/parser/CslParser.cpp:525-532 | expectType never moves the position and never touches the mapping |
| ParserSpec.GetPrecedence | impl/core/parser/CslParser.cpp:1094-1118 | every precedence is at most the default 17 |
| ParserSpec.AssocOf | impl/core/parser/CslParser.cpp:1120-1133 | a lookup in the map built from an initializer list gives the value of the first entry with the key, and 0 for a key not listed |
| ParserSpec.ParseExpression | impl/core/parser/CslParser.cpp:1051-1091 | parseExpression never moves back and stays within the input |
| ParserSpec.BinaryLoop | impl/core/parser/CslParser.cpp:1055-1079 | the binary loop never moves back and stays within the input |
| ParserSpec.Ternary | impl/core/parser/CslParser.cpp:1081-1088 | the ternary tail never moves back and stays within the input |
| ParserSpec.ParseUnary | impl/core/parser/CslParser.cpp:1135-1145 | parseUnary never moves back and stays within the input |
| ParserSpec.ParsePrimary | impl/core/parser/CslParser.cpp:1147-1186 | parsePrimary never moves back and stays within the input |
| ParserSpec.DelimitedArgs | impl/core/parser/CslParser.cpp:534-560 | parseDelimitedArgs never moves back and stays within the input |
| ParserSpec.ParseArg | impl/core/parser/CslParser.cpp:536-550 | one argument is always a FunctionArgExpr, and the position stays within the input |
| ParserSpec.ListStepAsWritten | impl/core/parser/CslParser.cpp:542-543 | one pass of the list-argument loop as written never moves back |
| ParserSpec.ListElems | impl/core/parser/CslParser.cpp:541-545 | the list-argument loop (with the stall corrected) never moves back and stays within the input |
| ParserSpec.ParseAnnotation | impl/core/parser/CslParser.cpp:1188-1210 | parseAnnotation consumes at least the '@' when there is a token, and stays within the input |
| ParserSpec.AnnotationArgs | impl/core/parser/CslParser.cpp:562-573 | parseDelimitedAnnotationArgs never moves back and stays within the input |
| ParserSpec.Annotations | impl/core/parser/CslParser.cpp:976-982 | parseAnnotations never moves back and stays within the input |
| ParserSpec.ParseConflict | impl/core/parser/CslParser.cpp:1012-1023 | a conflict constraint consumes at least its keyword |
| ParserSpec.ParseDependency | impl/core/parser/CslParser.cpp:1026-1037 | a dependency constraint consumes at least its keyword |
| ParserSpec.ParseValidate | impl/core/parser/CslParser.cpp:1040-1048 | a validate constraint consumes at least its keyword |
| ParserSpec.ConstraintList | impl/core/parser/CslParser.cpp:991-1004 | the constraint loop never moves back and stays within the input |
| ParserSpec.ParseConstraints | impl/core/parser/CslParser.cpp:985-1009 | a constraints block consumes at least its keyword |
| ParserSpec.ParseType | impl/core/parser/CslParser.cpp:789-842 | parseType never moves back and stays within the input |
| ParserSpec.UnionLoop | impl/core/parser/CslParser.cpp:792-814 | the union-bar loop never moves back and stays within the input |
| ParserSpec.ParsePostfixType | impl/core/parser/CslParser.cpp:844-855 | parsePostfixType never moves back and stays within the input |
| ParserSpec.PostfixLoop | impl/core/parser/CslParser.cpp:846-853 | the '[]' loop never moves back and stays within the input |
| ParserSpec.ParsePrimaryType | impl/core/parser/CslParser.cpp:857-934 | parsePrimaryType never moves back and stays within the input |
| ParserSpec.PrimaryMembers | impl/core/parser/CslParser.cpp:861-927 | the do-while loop never moves back and stays within the input |
| ParserSpec.ParseLiteralType | impl/core/parser/CslParser.cpp:936-968 | a literal token becomes a primitive type admitting exactly that literal (its text and kind), and exactly one token is consumed |
| ParserSpec.PrimaryMember | impl/core/parser/CslParser.cpp:862-919 | one pass of the do-while body never moves back and stays within the input |
| ParserSpec.ParseTableType | impl/core/parser/CslParser.cpp:595-648 | parseTableType always builds a table, and stays within the input |
| ParserSpec.TableBody | impl/core/parser/CslParser.cpp:606-630 | the loop up to '}' never moves back and stays within the input |
| ParserSpec.ParseWildcardKey | impl/core/parser/CslParser.cpp:771-786 | a wildcard key is named "*", flagged as wildcard, has no default, and consumes at least the '*' |
| ParserSpec.ParseKeyDefinition | impl/core/parser/CslParser.cpp:650-768 | a key definition consumes at least its name |
| ParserSpec.KeyBody | impl/core/parser/CslParser.cpp:663-747 | the key body never moves back and stays within the input |
| ParserSpec.LiteralDefault | impl/core/parser/CslParser.cpp:675-696 | a default literal is read without error; when there is none, exactly the error "Expected literal default value after '='" is added at the current token and nothing else changes |
| ParserSpec.TypedDefault | impl/core/parser/CslParser.cpp:675-697 | the default after a declared type never moves back and stays within the input |
| ParserSpec.InferredKey | impl/core/parser/CslParser.cpp:699-738 | the `name = literal` form never moves back and stays within the input |
| ParserSpec.KeyTerminator | impl/core/parser/CslParser.cpp:749-761 | the key terminator never moves back and stays within the input |
| ParserSpec.ParseConfigSchema | impl/core/parser/CslParser.cpp:576-592 | a schema's root is a table, and it consumes at least the 'config' keyword |
| ParserSpec.ParseSchemas | impl/core/parser/CslParser.cpp:34-45 | parseSchemas always consumes the whole token list |
| ParserSpec.ParserMain | impl/core/parser/CslParser.cpp:1214-1218 | the parser reports no warnings |
| CslParser.Parser.constructor | impl/core/parser/CslParser.cpp:31 | the parser starts at the first token with no errors and an empty mapping |
| CslParser.Parser.PushError | impl/core/parser/CslParser.cpp:23 | appends one error and changes nothing else |
| CslParser.Parser.Reserve | impl/core/parser/CslParser.cpp:655-658 | a declaration's name token gets an entry unless it has one |
| CslParser.Parser.Bind | impl/core/parser/CslParser.cpp:764-766 | a reserved name token is pointed at the finished declaration |
| CslParser.Parser.Advance | impl/core/parser/CslParser.cpp:500-507 | ends in the state ParserSpec.Advance gives |
| CslParser.Parser.Expect | impl/core/parser/CslParser.cpp:509-516 | ends in the state ParserSpec.Expect gives |
| CslParser.Parser.ExpectType | impl/core/parser/CslParser.cpp:525-532 | ends in the state ParserSpec.ExpectType gives |
| CslParser.Parser.ParseExpression | impl/core/parser/CslParser.cpp:1051-1091 | returns the expression and ends in the state ParserSpec.ParseExpression gives |
| CslParser.Parser.ParseUnary | impl/core/parser/CslParser.cpp:1135-1145 | returns the expression and ends in the state ParserSpec.ParseUnary gives |
| CslParser.Parser.ParsePrimary | impl/core/parser/CslParser.cpp:1147-1186 | returns the expression and ends in the state ParserSpec.ParsePrimary gives |
| CslParser.Parser.ParseDelimitedArgs | impl/core/parser/CslParser.cpp:534-560 | returns the arguments and ends in the state ParserSpec.DelimitedArgs gives |
| CslParser.Parser.ParseArg | impl/core/parser/CslParser.cpp:536-550 | returns the argument and ends in the state ParserSpec.ParseArg gives |
| CslParser.Parser.ParseAnnotation | impl/core/parser/CslParser.cpp:1188-1210 | returns the annotation and ends in the state ParserSpec.ParseAnnotation gives |
| CslParser.Parser.ParseDelimitedAnnotationArgs | impl/core/parser/CslParser.cpp:562-573 | returns the arguments and ends in the state ParserSpec.AnnotationArgs gives |
| CslParser.Parser.ParseAnnotations | impl/core/parser/CslParser.cpp:976-982 | returns the annotations and ends in the state ParserSpec.Annotations gives |
| CslParser.Parser.ParseConstraints | impl/core/parser/CslParser.cpp:985-1009 | returns the constraints and ends in the state ParserSpec.ParseConstraints gives |
| CslParser.Parser.ParseConflictConstraint | impl/core/parser/CslParser.cpp:1012-1023 | returns the constraint and ends in the state ParserSpec.ParseConflict gives |
| CslParser.Parser.ParseDependencyConstraint | impl/core/parser/CslParser.cpp:1026-1037 | returns the constraint and ends in the state ParserSpec.ParseDependency gives |
| CslParser.Parser.ParseValidateConstraint | impl/core/parser/CslParser.cpp:1040-1048 | returns the constraint and ends in the state ParserSpec.ParseValidate gives |
| CslParser.Parser.UnionMixes | impl/core/parser/CslParser.cpp:816-839 | the flag loop over a union's members decides MixesLiteral |
| CslParser.Parser.ParseType | impl/core/parser/CslParser.cpp:789-842 | returns the type and ends in the state ParserSpec.ParseType gives |
| CslParser.Parser.ParsePostfixType | impl/core/parser/CslParser.cpp:844-855 | returns the type and ends in the state ParserSpec.ParsePostfixType gives |
| CslParser.Parser.ParsePrimaryType | impl/core/parser/CslParser.cpp:857-934 | returns the type and ends in the state ParserSpec.ParsePrimaryType gives |
| CslParser.Parser.ParseLiteralType | impl/core/parser/CslParser.cpp:936-968 | returns the type and ends in the state ParserSpec.ParseLiteralType gives |
| CslParser.Parser.PrimaryMember | impl/core/parser/CslParser.cpp:862-919 | returns the member and ends in the state ParserSpec.PrimaryMember gives |
| CslParser.Parser.ParseTableType | impl/core/parser/CslParser.cpp:595-648 | returns the table and ends in the state ParserSpec.ParseTableType gives |
| CslParser.Parser.CloseTable | impl/core/parser/CslParser.cpp:632-645 | ends in the state ParserSemantics.CloseTable gives |
| CslParser.Parser.ParseWildcardKey | impl/core/parser/CslParser.cpp:771-786 | returns the key and ends in the state ParserSpec.ParseWildcardKey gives |
| CslParser.Parser.ParseKeyDefinition | impl/core/parser/CslParser.cpp:650-768 | returns the key and ends in the state ParserSpec.ParseKeyDefinition gives |
| CslParser.Parser.ParseKeyBody | impl/core/parser/CslParser.cpp:663-747 | returns the key's parts and ends in the state ParserSpec.KeyBody gives |
| CslParser.Parser.ParseLiteralDefault | impl/core/parser/CslParser.cpp:675-696 | returns the literal and ends in the state ParserSpec.LiteralDefault gives |
| CslParser.Parser.KeyEnd | impl/core/parser/CslParser.cpp:749-761 | ends in the state ParserSpec.KeyTerminator gives |
| CslParser.Parser.ParseConfigSchema | impl/core/parser/CslParser.cpp:576-592 | returns the schema and ends in the state ParserSpec.ParseConfigSchema gives |
| CslParser.Parser.ParseSchemas | impl/core/parser/CslParser.cpp:34-45 | returns the schemas and ends in the state ParserSpec.ParseSchemas gives |
| CslParser.Parser.GetIdentifierTokenIndexFromRegion | impl/core/parser/CslParser.cpp:290-297 | the scan loop returns IdentifierIndex |
| CslParser.Parser.MapIdentifiersInExpr | impl/core/parser/CslParser.cpp:360-430 | only the mapping changes, to MapExpr of the old one |
| CslParser.Parser.MapEach | impl/core/parser/CslParser.cpp:417-418 | only the mapping changes, to MapExprs of the old one |
| CslParser.Parser.MapIdentifiersInAnnotations | impl/core/parser/CslParser.cpp:432-438 | only the mapping changes, to MapAnnotations of the old one |
| CslParser.Parser.MapIdentifiersInType | impl/core/parser/CslParser.cpp:440-471 | ends in the state ParserSemantics.MapType gives (nested tables also check their constraints) |
| CslParser.Parser.MapIdentifiersInConstraints | impl/core/parser/CslParser.cpp:473-498 | only the mapping changes, to MapConstraints of the old one |
| CslParser.Parser.ValidateConstraintsSemantics | impl/core/parser/CslParser.cpp:109-288 | ends in the state ParserSemantics.CheckConstraints gives |
| CslParser.Parser.ValidateAnnotationsForType | impl/core/parser/CslParser.cpp:60-75 | only the errors change, to CheckAnnotations of the old ones |
| CslParser.Parser.ValidateDefaultForKey | impl/core/parser/CslParser.cpp:77-107 | only the errors change, to CheckDefault of the old ones |
| CslParser.CslParserMain | impl/core/parser/CslParser.cpp:1214-1218 | the parser run over a token list gives ParserSpec.ParserMain: schemas, errors, no warnings, mapping |
| ParserProps.OperandParses | impl/core/parser/CslParser.cpp:1160-1163 | an identifier token is read as one identifier expression, one token on, with no report |
| ParserProps.LastOperand | impl/core/parser/CslParser.cpp:1051-1091 | an identifier that is the last token is a whole expression at any minimum precedence |
| ParserProps.MiddleStops | impl/core/parser/CslParser.cpp:1068 | the right operand of op1 stops before op2 when op2's precedence is not below op1's plus op2's associativity |
| ParserProps.MiddleTakes | impl/core/parser/CslParser.cpp:1068-1077 | the right operand of op1 takes op2 and its operand when op2's precedence is below op1's plus op2's associativity |
| ParserProps.ChainGroupsLeft | impl/core/parser/CslParser.cpp:1055-1079 | for any associativity table, x op1 y op2 z parses as (x op1 y) op2 z with no report when op2 does not bind tighter |
| ParserProps.ChainGroupsRight | impl/core/parser/CslParser.cpp:1055-1079 | for any associativity table, x op1 y op2 z parses as x op1 (y op2 z) with no report when op2 binds tighter (or equally and right-associative) |
| ParserProps.CorrectedAssociativity | impl/core/parser/CslParser.cpp:1120-1133 | with the corrected table, assignment looks up 1 and every other binary operator 0 |
| ParserProps.AsWrittenAdditiveRight | impl/core/parser/CslParser.cpp:1122-1124 | as written, binary "+" and "-" look up 1, the value of their unary entries, which come first |
| ParserProps.AsWrittenAgreesElsewhere | impl/core/parser/CslParser.cpp:1120-1133 | the table as written and the corrected one differ on "+" and "-" only |
| ParserProps.AdditiveRight | impl/core/parser/CslParser.cpp:1068-1076 | whenever "+" and "-" look up 1, x - y + z and x - y - z group to the right |
| ParserProps.MinusChainGroupsRightAsWritten | impl/core/parser/CslParser.cpp:1068-1124 | as written, x - y + z parses as x - (y + z) |
| ParserProps.SamePrecedenceGroupsLeft | impl/core/parser/CslParser.cpp:1055-1079 | with the corrected table, two operators of one precedence other than "=" group to the left |
| ParserProps.AssignmentGroupsRight | impl/core/parser/CslParser.cpp:1055-1079 | with the corrected table, x = y = z parses as x = (y = z) |
| ParserProps.TighterBindsFirst | impl/core/parser/CslParser.cpp:1068 | the operator of lower precedence number becomes the inner node, on either side |
| ParserProps.ListedPrecedence | impl/core/parser/CslParser.cpp:1058-1114 | exactly the operators the loop accepts have a binary precedence below 17 |
| ParserProps.NonOperatorEndsLoop | impl/core/parser/CslParser.cpp:1066 | a token that is not a binary operator ends the loop with nothing consumed |
| ParserProps.ListLoopAsWritten | impl/core/parser/CslParser.cpp:541-544 | n passes of the loop as written add between none and n elements and stay within the input |
| ParserProps.StallStep | impl/core/parser/CslParser.cpp:1182-1184 | at a token that starts no expression, one pass reports it, records a null element and stays put |
| ParserProps.ListStallsAsWritten | impl/core/parser/CslParser.cpp:541-544 | as written, at such a token the loop never moves: after n passes it has n reports and n null elements |
| ParserProps.ListElemsSkipsStall | impl/core/parser/CslParser.cpp:541-544 | the corrected loop reports such a token once and passes over it |
| ParserProps.ListElemsEnds | impl/core/parser/CslParser.cpp:541-545 | the corrected loop always ends, at ']' or at the end of the input |
| ParserProps.DefaultMismatchIff | impl/core/parser/CslParser.cpp:86-103 | the name test reports a default exactly when the primitive does not admit the literal's kind |
| ParserProps.InferAdmits | impl/core/parser/CslParser.cpp:724-731 | the corrected inference admits every literal kind, so an inferred key passes the default check |
| ParserProps.DurationInferredAsWritten | impl/core/parser/CslParser.cpp:730 | as written, `name = 1h` infers a number key and its own default is then reported |
| ParserProps.MixFlagsOfMembers | impl/core/parser/CslParser.cpp:818-836 | each flag of the loop is set exactly when some member is of its sort |
| ParserProps.MixesLiteralIff | impl/core/parser/CslParser.cpp:816-839 | a union is reported exactly when it holds the string type and a string literal, or the number type and a numeric literal |
| ParserProps.NumberOrTrueMixes | impl/core/parser/CslParser.cpp:824-827 | as written `number` joined with `true` is reported as mixing a number with its literal; corrected it is not |
| ParserProps.MapExprExtends | impl/core/parser/CslParser.cpp:360-430 | mapIdentifiersInExpr keeps every entry's key and only adds or sets entries of identifier tokens to keys |
| ParserProps.MapConstraintsExtends | impl/core/parser/CslParser.cpp:473-498 | the same for all constraints of a table |
| ParserProps.PropertyMapsToInnerKey | impl/core/parser/CslParser.cpp:375-390 | in `a.b`, the token of `b` maps to the key `b` of the table `a` denotes |
| ParserProps.PropertyRemappedAsWritten | impl/core/parser/CslParser.cpp:386-393 | as written, when the enclosing table also has a key `b`, the token of `b` ends mapped to that outer key |
| ParserProps.ServerHostExample | impl/core/parser/CslParser.cpp:373-394 | for `server.host`, the corrected pass maps `host` to the inner key and the pass as written to the outer one |
| ParserProps.IdentifierMapsToFirstKey | impl/core/parser/CslParser.cpp:362-371 | a bare identifier maps to the first key of its name when its token is found, and changes nothing when no key has that name |
| ParserProps.CheckAnnotationsOfIff | impl/core/parser/CslParser.cpp:65-74 | the annotation check only appends, and appends nothing exactly when no annotation is misplaced (@min/@max on string, @regex on number) |
| ParserProps.WalkIgnoresProperty | impl/core/parser/CslParser.cpp:139-141 | the unknown-identifier walks never look at the property after '.' |
| ParserProps.WalkIgnoresSubsetLists | impl/core/parser/CslParser.cpp:164-166 | nor at the list arguments of subset, nor at any list argument in a conflict |
| ParserProps.MissingDependencyReported | impl/core/parser/CslParser.cpp:117-123 | a requires condition naming no key is reported first, at the condition |
| ParserProps.CheckDefaultAdmits | impl/core/parser/CslParser.cpp:77-107 | a primitive key's default is reported once, at the key name, exactly when the primitive does not admit it |
| ParserProps.CheckDefaultOthers | impl/core/parser/CslParser.cpp:78-82 | a key without a default or of a non-primitive type is never reported |
| ParserProps.SignFused | impl/core/parser/CslParser.cpp:681-689 | a sign before a number token is fused with it into one default literal of the number's kind, two tokens on |
| ParserProps.TableBodyGrows | impl/core/parser/CslParser.cpp:606-630 | the table loop only adds keys and constraints in order, keeps a wildcard and a seen constraints block |
| ParserProps.TableBodyWildcardReplaced | impl/core/parser/CslParser.cpp:606-630 | a `*` key replaces the wildcard met before it: from two different starting wildcards the loop ends with equal position, diagnostics, keys and constraints, and either keeps each starting wildcard or ends in the same table |
| ParserProps.WildcardKeySets | impl/core/parser/CslParser.cpp:616-617 | at a `*` key the finished table is the same whatever wildcard came before, and it has a wildcard: a `*` key sets the wildcard, replacing an earlier one |
| ParserProps.ConstraintsBlockAppended | impl/core/parser/CslParser.cpp:607-613 | a `constraints` block after an earlier one pushes exactly "Duplicate constraints block" at its keyword before its constraints are parsed, the first block pushes nothing, and the block's constraints follow those gathered so far in the finished table, which is marked as having seen a block |
| ParserProps.UnionLoopFlattens | impl/core/parser/CslParser.cpp:792-814 | after a union bar the result is a union led by the members of what came before; without one the type is unchanged |
| ParserProps.UnionBindsBeforeArray | impl/core/parser/CslParser.cpp:857-934 | `string` joined with `number[]` is an array of the union of string and number |
| StringOrder.LexLeqTotal | impl/core/shared/CslRepr2Csl.h:84 | the character-wise order std::sort uses on names is total |
| StringOrder.LexLeqTransitive | impl/core/shared/CslRepr2Csl.h:84 | that order is transitive |
| StringOrder.LexLeqAntisymmetric | impl/core/shared/CslRepr2Csl.h:84 | that order is antisymmetric |
| StringOrder.Insert | impl/core/shared/CslRepr2Csl.h:84 | inserting a name into a sorted sequence keeps it sorted and adds exactly that name |
| StringOrder.SortNames | impl/core/shared/CslRepr2Csl.h:84 | std::sort of the key names: a sorted permutation of them |
| StringOrder.SortedUnique | impl/core/shared/CslRepr2Csl.h:84 | two sorted permutations of the same names are equal, so the sorted order is determined |
| FormatterText.Indent | impl/core/shared/CslRepr2Csl.h:22-24 | getIndent(level) is exactly 2 * level spaces |
| FormatterText.IdentTailFromIff | impl/core/shared/CslRepr2Csl.h:29-32 | the loop from index i accepts exactly when every later character is a letter, digit or underscore |
| FormatterText.IsIdentifierIff | impl/core/shared/CslRepr2Csl.h:26-34 | isIdentifier holds exactly for a non-empty name with a letter or underscore first and letters, digits or underscores after |
| FormatterText.Escaped | impl/core/shared/CslRepr2Csl.h:41-47 | escaping never shortens the name |
| FormatterText.UnescapeEscaped | impl/core/shared/CslRepr2Csl.h:41-47 | reading the escapes back gives the name: backquote and backslash escaping is lossless |
| FormatterText.QuotedRoundTrip | impl/core/shared/CslRepr2Csl.h:36-50 | quoteIdentifier is lossless: unquoting the printed name gives the name back, for every name |
| FormatterText.QuotedShape | impl/core/shared/CslRepr2Csl.h:36-50 | a name is left as is exactly when it is "*" or an identifier; otherwise it is wrapped in backquotes |
| FormatterText.LastKey | impl/core/shared/CslRepr2Csl.h:86 | the index of the last key with a name (no later key has it), and none exactly when no key has it |
| FormatterText.KeyMapLastWins | impl/core/shared/CslRepr2Csl.h:85-86 | the name-to-key map holds exactly the key names, each with its last definition |
| FormatterText.SortedNamesAreKeys | impl/core/shared/CslRepr2Csl.h:84-88 | every sorted name finds its definition in the map (map[keyName] never default-constructs) |
| FormatterText.SchemasTextAppend | impl/core/shared/CslRepr2Csl.h:297-304 | one more schema appends its text and a blank line |
| FormatterText.SchemasTextPrefix | impl/core/shared/CslRepr2Csl.h:299-302 | the text of the first i + 1 schemas extends the text of the first i by schema i and a blank line |
| FormatterProperties.ArrayTextIsElementText | impl/core/shared/CslRepr2Csl.h:141-152 | both branches of printArrayType print the element type followed by "[]" |
| FormatterProperties.GroupingIsNotPrinted | impl/core/shared/CslRepr2Csl.h:233-238 | no parentheses are printed: (a + b) * c and a + b * c print alike |
| FormatterProperties.ConstraintsBlockOnlyWhenPresent | impl/core/shared/CslRepr2Csl.h:112-138 | a table without constraints prints only its key lines and wildcard; with constraints, the body ends with "};" and a newline |
| FormatterProperties.DuplicateKeyPrintsLast | impl/core/shared/CslRepr2Csl.h:82-98 | a name defined twice is printed twice, both times with its second definition |
| FormatterProperties.SameDefinitionForName | impl/core/shared/CslRepr2Csl.h:85-88 | with distinct names, the definition printed for a name does not depend on the key order |
| FormatterProperties.KeyLinesAlike | impl/core/shared/CslRepr2Csl.h:87-98 | two permutations of keys with distinct names print the same lines for the same names |
| FormatterProperties.KeyNamesMultiset | impl/core/shared/CslRepr2Csl.h:83 | permuted keys have permuted names |
| FormatterProperties.KeyOrderDoesNotMatter | impl/core/shared/CslRepr2Csl.h:81-139 | printTableBody is canonical: keys with distinct names print alike in any definition order |
| Formatter.OutStream.constructor | impl/core/shared/CslRepr2Csl.h:292 | a fresh stream is empty |
| Formatter.OutStream.Write | impl/core/shared/CslRepr2Csl.h:285 | writing appends exactly the text |
| Formatter.QuoteIdentifier | impl/core/shared/CslRepr2Csl.h:36-50 | the character loop returns the quoted name |
| Formatter.PrintExpr | impl/core/shared/CslRepr2Csl.h:230-282 | appends exactly the expression's text (nothing for a null expression) |
| Formatter.PrintBinary | impl/core/shared/CslRepr2Csl.h:233-238 | appends exactly the binary expression's text |
| Formatter.PrintTernary | impl/core/shared/CslRepr2Csl.h:246-253 | appends exactly the ternary expression's text |
| Formatter.PrintFunctionArg | impl/core/shared/CslRepr2Csl.h:215-228 | appends exactly the argument's text, a bracketed list for a list argument |
| Formatter.PrintFunctionCall | impl/core/shared/CslRepr2Csl.h:206-213 | appends exactly the call's text |
| Formatter.PrintExprList | impl/core/shared/CslRepr2Csl.h:54-61 | appends the expressions separated by ", " |
| Formatter.PrintAnnotation | impl/core/shared/CslRepr2Csl.h:65-67 | appends " @name(args)" |
| Formatter.PrintAnnotations | impl/core/shared/CslRepr2Csl.h:63-69 | appends every annotation in order |
| Formatter.PrintAllowed | impl/core/shared/CslRepr2Csl.h:159-163 | appends the allowed literals separated by a bar with spaces in their source text |
| Formatter.PrintType | impl/core/shared/CslRepr2Csl.h:154-204 | appends exactly the type's text |
| Formatter.PrintPrimitive | impl/core/shared/CslRepr2Csl.h:156-175 | appends the allowed literals or the primitive's name, then its annotations |
| Formatter.PrintTable | impl/core/shared/CslRepr2Csl.h:176-182 | appends the braced table body at one more level of indent |
| Formatter.PrintArrayType | impl/core/shared/CslRepr2Csl.h:141-152 | appends exactly the array's text |
| Formatter.PrintUnionType | impl/core/shared/CslRepr2Csl.h:73-79 | appends the members separated by a bar with spaces |
| Formatter.PrintKeyLine | impl/core/shared/CslRepr2Csl.h:89-97 | appends exactly one key line |
| Formatter.PrintKeyHead | impl/core/shared/CslRepr2Csl.h:89-91 | appends indent, quoted name, '?' when optional, and ": " |
| Formatter.PrintKeyTail | impl/core/shared/CslRepr2Csl.h:93-97 | appends the default, the annotations and ";" with a newline |
| Formatter.PrintConstraints | impl/core/shared/CslRepr2Csl.h:115-136 | appends one line per constraint, in order |
| Formatter.PrintConstraint | impl/core/shared/CslRepr2Csl.h:116-135 | appends exactly the constraint's line |
| Formatter.PrintTableBody | impl/core/shared/CslRepr2Csl.h:81-139 | appends exactly the table body's text |
| Formatter.CollectKeyNames | impl/core/shared/CslRepr2Csl.h:82-83 | collects the key names in definition order |
| Formatter.FillKeyMap | impl/core/shared/CslRepr2Csl.h:85-86 | builds the name-to-key map, a later key replacing an earlier one |
| Formatter.PrintKeyLines | impl/core/shared/CslRepr2Csl.h:87-98 | appends one line per sorted name, printed from the map |
| Formatter.PrintWildcard | impl/core/shared/CslRepr2Csl.h:99-111 | appends the wildcard line when there is one |
| Formatter.PrintConstraintsBlock | impl/core/shared/CslRepr2Csl.h:112-138 | appends the constraints block when there are constraints |
| Formatter.ToCsl | impl/core/shared/CslRepr2Csl.h:284-289 | appends "config name {", the body at indent 1, and "}" |
| Formatter.SchemaToCsl | impl/core/shared/CslRepr2Csl.h:291-295 | returns exactly the schema's text |
| Formatter.SchemasToCsl | impl/core/shared/CslRepr2Csl.h:297-304 | returns exactly the schemas' text |
| Formatter.WriteSchemas | impl/core/shared/CslRepr2Csl.h:299-302 | appends each schema followed by a blank line |
| Formatter.WriteSchemaBlock | impl/core/shared/CslRepr2Csl.h:300-301 | appends one schema and a blank line |
| JsonBigInt.ValSnoc | impl/core/shared/JsonIO.hpp:35-38 | a new most significant base-10^9 limb adds its weight times the base to the power of its position |
| JsonBigInt.ValBelow | impl/core/shared/JsonIO.hpp:35-38 | a number of n limbs is below 10^(9n) |
| JsonBigInt.ValAtLeast | impl/core/shared/JsonIO.hpp:35-41 | a trimmed number of n limbs is at least 10^(9(n-1)) |
| JsonBigInt.ZeroIffEmpty | impl/core/shared/JsonIO.hpp:40-41 | a trimmed limb list is zero exactly when it is empty |
| JsonBigInt.LengthBound | impl/core/shared/JsonIO.hpp:35-41 | a trimmed number below 10^(9k) has at most k limbs |
| JsonBigInt.MulAddLimbsFacts | impl/core/shared/JsonIO.hpp:54-80 | the carry-propagating multiply-add yields limbs whose value is k times the old value plus the carry, keeps every limb below the base and stays trimmed |
| JsonBigInt.DivTopFacts | impl/core/shared/JsonIO.hpp:92-101 | long division from the top limb gives a quotient and a remainder below the divisor with value equal to divisor times quotient plus remainder |
| JsonBigInt.NatLimbsFacts | impl/core/shared/JsonIO.hpp:43-51 | the limbs of a natural number have exactly its value and are canonical |
| JsonBigInt.CanonicalLimbs | impl/core/shared/JsonIO.hpp:35-41 | a trimmed limb list is the only one for its value |
| JsonBigInt.ValConcat | impl/core/shared/JsonIO.hpp:35-38 | the value of two limb lists joined is the low part plus the high part shifted by the low part's length |
| JsonBigInt.DigitByte | impl/core/shared/JsonIO.hpp:103-116 | the character for a decimal digit is an ASCII digit |
| JsonBigInt.DecimalString | impl/core/shared/JsonIO.hpp:103-116 | the decimal text of a number is never empty |
| JsonBigInt.Pad | impl/core/shared/JsonIO.hpp:103-116 | a limb printed with leading zeros has exactly the requested width |
| JsonBigInt.DigitOf | impl/core/shared/JsonIO.hpp:82-89 | the value of a digit character is below ten |
| JsonBigInt.DecimalShift | impl/core/shared/JsonIO.hpp:103-116 | the text of a times 10^k plus b (b below 10^k) is the text of a followed by b padded to k digits |
| JsonBigInt.DecimalOfDigits | impl/core/shared/JsonIO.hpp:82-89 | the decimal text of the value of a canonical digit string is that string |
| JsonBigInt.DigitsOfDecimal | impl/core/shared/JsonIO.hpp:103-116 | the decimal text of a number is canonical and reads back as that number |
| JsonBigInt.BigInt.constructor | impl/core/shared/JsonIO.hpp:35-38 | a new BigInt has no limbs, the value zero |
| JsonBigInt.BigInt.IsZero | impl/core/shared/JsonIO.hpp:40 | isZero holds exactly when there are no limbs, which for a trimmed number means the value zero |
| JsonBigInt.BigInt.Trim | impl/core/shared/JsonIO.hpp:41 | trim drops high zero limbs only: the value is unchanged, the result is a prefix and trimmed |
| JsonBigInt.BigInt.FromUint64 | impl/core/shared/JsonIO.hpp:43-51 | from_uint64 gives the canonical limbs of its argument |
| JsonBigInt.BigInt.MulSmall | impl/core/shared/JsonIO.hpp:54-64 | mul_small multiplies the value by k, including the k = 0 and k = 1 shortcuts, and keeps it trimmed |
| JsonBigInt.BigInt.Mul10Add | impl/core/shared/JsonIO.hpp:72-80 | mul10_add makes the value ten times the old one plus the digit and keeps it trimmed |
| JsonBigInt.BigInt.MultiplyAdd | impl/core/shared/JsonIO.hpp:57-64 | the limb loop leaves exactly the multiply-add of the old limbs with the final carry pushed on |
| JsonBigInt.BigInt.DivSmall | impl/core/shared/JsonIO.hpp:92-101 | div_small leaves the quotient and returns the remainder: old value equals divisor times new value plus remainder, remainder below divisor, result trimmed |
| JsonBigInt.BigInt.ToDecimalString | impl/core/shared/JsonIO.hpp:103-116 | toDecimalString returns the decimal text of the value |
| JsonBigInt.BigInt.ToUll | impl/core/shared/JsonIO.hpp:119-131 | to_ull succeeds exactly when the value fits in 64 unsigned bits, and then returns it |
| JsonBigInt.BigInt.FromDecimalDigits | impl/core/shared/JsonIO.hpp:82-89 | fromDecimalDigits builds a trimmed number equal to the value of the digit string |
| JsonNumber.Int32 | impl/core/shared/JsonIO.hpp:1068 | the int32_t conversion of the exponent lands in the 32-bit range and leaves in-range values alone |
| JsonNumber.FromInteger | impl/core/shared/JsonIO.hpp:142-162 | the integral Decimal constructor stores the magnitude exactly with exponent 0, negative exactly for negative inputs (so zero is never negative) |
| JsonNumber.Zeros | impl/core/shared/JsonIO.hpp:268 | n appended '0' characters are n digits |
| JsonNumber.FirstNonZero | impl/core/shared/JsonIO.hpp:1056 | find_first_not_of('0') gives the first position that is not '0', every position before it being '0' |
| JsonNumber.TrailingZeros | impl/core/shared/JsonIO.hpp:1063-1064 | the count of popped zeros covers exactly the run of '0' at the end |
| JsonNumber.TrimZeros | impl/core/shared/JsonIO.hpp:278 | trimming leaves a prefix that does not end in '0' |
| JsonNumber.TrailingZerosUnique | impl/core/shared/JsonIO.hpp:1063-1064 | any cut that leaves only zeros after it and a non-zero digit before it is the one the loop finds |
| JsonNumber.LeadingZerosDontCount | impl/core/shared/JsonIO.hpp:1056-1061 | erasing leading zeros does not change the value of the digits |
| JsonNumber.AllZerosValue | impl/core/shared/JsonIO.hpp:1057-1060 | a run of zeros has the value zero |
| JsonNumber.TrailingZerosScale | impl/core/shared/JsonIO.hpp:1063-1068 | n trailing zeros multiply the value by 10^n, which the exponent takes back |
| JsonNumber.TrailingZerosOfSuffix | impl/core/shared/JsonIO.hpp:1061-1064 | the trailing zeros of a string that ends in a non-zero part are those of that part |
| JsonNumber.ClampedExpIsMin | impl/core/shared/JsonIO.hpp:1040-1045 | clamping after every digit gives the smaller of the exponent's value and 2000000000 |
| JsonNumber.Stripped | impl/core/shared/JsonIO.hpp:1056-1061 | the digits after the leading zeros are a digit string no longer than the input |
| JsonNumber.Core | impl/core/shared/JsonIO.hpp:1063-1064 | the digits left after popping the trailing zeros are a digit string |
| JsonNumber.NormalizeFacts | impl/core/shared/JsonIO.hpp:1053-1070 | the normalised Decimal is well formed, is the canonical zero exactly when the digits read are all zero, and otherwise has the sign read, an unscaled value not divisible by ten and the exponent that keeps the exact value of the digits |
| JsonNumber.NormalizeNonZero | impl/core/shared/JsonIO.hpp:1061-1070 | for digits that are not all zero the Decimal is non-zero, well formed and exact |
| JsonNumber.StrippedFacts | impl/core/shared/JsonIO.hpp:1061-1067 | a digit string that starts with a non-zero digit is its core times 10 to the number of trailing zeros, with a core not divisible by ten |
| JsonNumber.CoreLastDigit | impl/core/shared/JsonIO.hpp:1063-1064 | the core of such a string is non-empty and does not end in zero |
| JsonNumber.U64Facts | impl/core/shared/JsonIO.hpp:43-51 | from_uint64's limbs are canonical and empty only for zero |
| JsonNumber.EmitNumber | impl/core/shared/JsonIO.hpp:258-322 | emitNumber appends "0" for zero, otherwise the sign and the fixed or scientific text, whichever the length estimates choose, ties going to fixed |
| JsonNumber.EmitFixed | impl/core/shared/JsonIO.hpp:265-285 | emit_fixed appends the digits with k zeros, the digits with a point and the fraction without trailing zeros, or "0." and leading zeros, as k says |
| JsonNumber.EmitPointed | impl/core/shared/JsonIO.hpp:272-279 | with the point inside the digits, the fraction is written without trailing zeros and without a bare point |
| JsonNumber.PopZeros | impl/core/shared/JsonIO.hpp:278 | the pop loop removes exactly the trailing zeros |
| JsonNumber.TrimAfterPoint | impl/core/shared/JsonIO.hpp:276-279 | popping zeros stops before a non-zero byte, so only the fraction is trimmed |
| JsonNumber.EmitSci | impl/core/shared/JsonIO.hpp:294-310 | emit_sci appends the mantissa, 'e', a '-' only for a negative exponent, and the exponent's digits |
| JsonNumber.EmitMantissa | impl/core/shared/JsonIO.hpp:295-303 | the mantissa is the first digit, then the point and the rest without trailing zeros when anything is left |
| JsonValue.TypeName | impl/core/shared/JsonIO.hpp:376-387 | the type name is one of the six kind words |
| JsonValue.TypeNamesDistinct | impl/core/shared/JsonIO.hpp:376-387 | two values have the same type name exactly when they are of the same kind |
| JsonValue.At | impl/core/shared/JsonIO.hpp:391-410 | indexing gives the element for an array and an index in range, logic_error for a non-array and out_of_range past the end |
| JsonValue.LastMatch | impl/core/shared/JsonIO.hpp:413-432 | the backward scan finds the last member with the key, or reports that none has it |
| JsonValue.FirstMatch | impl/core/shared/JsonIO.hpp:700-704 | the forward scan finds the first member with the key, or reports that none has it |
| JsonValue.MatchesAgree | impl/core/shared/JsonIO.hpp:700-716 | getFirst and getLast find a key in the same objects, the first at or before the last |
| JsonValue.UniqueKeyAgrees | impl/core/shared/JsonIO.hpp:700-710 | for a key that occurs once, the first and the last match are the same member |
| JsonValue.AppendMatches | impl/core/shared/JsonIO.hpp:494-525 | appending a member makes it the last match of its name, keeps the first match of a present key, and leaves other keys alone |
| JsonValue.Key | impl/core/shared/JsonIO.hpp:413-432 | operator[](key) returns the value of the last member with the key, out_of_range when there is none, and logic_error on a non-object |
| JsonValue.GetFirst | impl/core/shared/JsonIO.hpp:700-704 | getFirst returns the value of the first member with the key, and nothing for a non-object or a missing key |
| JsonValue.GetLast | impl/core/shared/JsonIO.hpp:706-710 | getLast returns the value of the last member with the key, and nothing for a non-object or a missing key |
| JsonValue.HasKey | impl/core/shared/JsonIO.hpp:712-716 | hasKey holds exactly for an object with a member of that name |
| JsonValue.Size | impl/core/shared/JsonIO.hpp:439-444 | size is the element or member count of a container, logic_error otherwise |
| JsonValue.Empty | impl/core/shared/JsonIO.hpp:446-451 | empty answers for containers only, logic_error otherwise |
| JsonValue.EmptyIsSizeZero | impl/core/shared/JsonIO.hpp:439-451 | empty is size equal to zero, and both throw on the same values |
| JsonValue.Reserve | impl/core/shared/JsonIO.hpp:453-458 | reserve leaves a container unchanged and throws logic_error on anything else |
| JsonValue.Clear | impl/core/shared/JsonIO.hpp:460-465 | clear leaves an empty container of the same kind and throws logic_error on anything else |
| JsonValue.PushBack | impl/core/shared/JsonIO.hpp:468-491 | push_back on an array appends the value, and throws logic_error on anything else |
| JsonValue.PushMember | impl/core/shared/JsonIO.hpp:494-525 | push_back on an object appends the member, keeping duplicates, and throws logic_error on anything else |
| JsonValue.PushBackThenAt | impl/core/shared/JsonIO.hpp:391-491 | after push_back the new element is at the old size, earlier elements are where they were and size grew by one |
| JsonValue.PushMemberThenKey | impl/core/shared/JsonIO.hpp:413-525 | after pushing a member, indexing by its name returns it even over an earlier duplicate, and other keys answer as before |
| JsonValue.GetNull | impl/core/shared/JsonIO.hpp:531-534 | get of nullptr_t succeeds exactly on null, logic_error otherwise |
| JsonValue.GetBool | impl/core/shared/JsonIO.hpp:536-539 | get of bool succeeds exactly on a boolean, logic_error otherwise |
| JsonValue.GetString | impl/core/shared/JsonIO.hpp:541-547 | get of string succeeds exactly on a string, logic_error otherwise |
| JsonValue.GetArray | impl/core/shared/JsonIO.hpp:549-551 | get of array succeeds exactly on an array, logic_error otherwise |
| JsonValue.GetObject | impl/core/shared/JsonIO.hpp:552-555 | get of object succeeds exactly on an object, logic_error otherwise |
| JsonValue.GetDecimal | impl/core/shared/JsonIO.hpp:557-560 | get of Decimal succeeds exactly on a number, logic_error otherwise |
| JsonValue.GetRoundTrips | impl/core/shared/JsonIO.hpp:350-360 | each typed get returns what the matching factory stored |
| JsonValue.GuardExact | impl/core/shared/JsonIO.hpp:577-591 | the overflow guard rejects a digit exactly when the next accumulation would pass the bound |
| JsonValue.GetIntegral | impl/core/shared/JsonIO.hpp:562-594 | get of an integer type: logic_error for a non-number or a negative exponent; otherwise the exact value when it lies within the type's range and out_of_range exactly when it does not |
| JsonValue.AccumulateNegative | impl/core/shared/JsonIO.hpp:574-583 | the negative loop succeeds exactly when minus the digits' value is at least the minimum, and then yields it |
| JsonValue.AccumulatePositive | impl/core/shared/JsonIO.hpp:584-593 | the positive loop succeeds exactly when the digits' value is at most the maximum, and then yields it |
| JsonDump.HexUpper | impl/core/shared/JsonIO.hpp:1104-1106 | the upper-case hex digit written by %04X reads back as its value |
| JsonDump.EscapedAppend | impl/core/shared/JsonIO.hpp:1091-1113 | escaping works byte by byte, so it distributes over concatenation |
| JsonDump.EscapedSnoc | impl/core/shared/JsonIO.hpp:1093-1111 | each turn of the loop appends the escape of one byte |
| JsonDump.EscapeByteShape | impl/core/shared/JsonIO.hpp:1094-1110 | a byte is copied as it is exactly when it is neither a control byte, a quote nor a backslash; otherwise its escape starts with a backslash |
| JsonDump.EscapeChar | impl/core/shared/JsonIO.hpp:1094-1110 | one byte of the switch appends the escape of that byte |
| JsonDump.EscapeString | impl/core/shared/JsonIO.hpp:1091-1113 | escapeString appends the quoted escape of the whole string |
| JsonDump.EscapeText | impl/core/shared/JsonIO.hpp:1115-1119 | escape returns the quoted escape of the string |
| JsonDump.DumpImpl | impl/core/shared/JsonIO.hpp:1121-1146 | dumpImpl appends the compact text of the value: keywords, the number's canonical text, escaped strings, and containers with comma separators |
| JsonDump.DumpArray | impl/core/shared/JsonIO.hpp:1127-1134 | the array case appends '[', the elements separated by ',', and ']' |
| JsonDump.DumpObject | impl/core/shared/JsonIO.hpp:1135-1144 | the object case appends '{', the members separated by ',', and '}', in member order |
| JsonDump.DumpMember | impl/core/shared/JsonIO.hpp:1137-1142 | one member is the separator when not first, the escaped name, ':' and the value |
| JsonDump.DumpText | impl/core/shared/JsonIO.hpp:1148-1153 | dump returns the compact text of the value |
| JsonReaderSpec.LineCol | impl/core/shared/JsonIO.hpp:748-753 | the line and column the reader tracks are both at least 1 |
| JsonReaderSpec.SkipWS | impl/core/shared/JsonIO.hpp:842-844 | ws never moves back and stays within the input |
| JsonReaderSpec.SkipWSFacts | impl/core/shared/JsonIO.hpp:837-844 | ws skips only the four ECMA-404 white-space bytes and stops at the first other byte |
| JsonReaderSpec.KeywordMatch | impl/core/shared/JsonIO.hpp:908-912 | the byte-by-byte comparison matches a prefix of the keyword and stops at the first mismatch or the end |
| JsonReaderSpec.LiteralAt | impl/core/shared/JsonIO.hpp:907-921 | a literal that is read moves forward within the input |
| JsonReaderSpec.HexValue | impl/core/shared/JsonIO.hpp:869-874 | a hex digit's value is below 16, and -1 marks a non-digit |
| JsonReaderSpec.Hex4From | impl/core/shared/JsonIO.hpp:875-883 | the remaining hex digits end exactly four bytes on with a value below 0x10000 |
| JsonReaderSpec.Hex4At | impl/core/shared/JsonIO.hpp:868-884 | hex4 reads exactly four bytes and a value below 0x10000 |
| JsonReaderSpec.EscapeUAt | impl/core/shared/JsonIO.hpp:944-960 | a \u escape that is read moves forward within the input |
| JsonReaderSpec.LowSurrogateAt | impl/core/shared/JsonIO.hpp:946-954 | the second half of a surrogate pair that is read moves forward within the input |
| JsonReaderSpec.Utf8At | impl/core/shared/JsonIO.hpp:764-811 | readUtf8Validated copies exactly the bytes it moves over |
| JsonReaderSpec.StringBody | impl/core/shared/JsonIO.hpp:926-971 | the string loop, when it ends well, ends past its start within the input |
| JsonReaderSpec.EscapeBody | impl/core/shared/JsonIO.hpp:931-962 | at a backslash: the end of input is an unterminated escape, the eight simple escapes append their byte, \u appends the escape's UTF-8 or fails where it does, and anything else is an invalid escape |
| JsonReaderSpec.StringAt | impl/core/shared/JsonIO.hpp:923-972 | a string that is read moves forward within the input |
| JsonReaderSpec.DigitsEnd | impl/core/shared/JsonIO.hpp:1024 | a digit run ends at the first non-digit or the end |
| JsonReaderSpec.IntPartAt | impl/core/shared/JsonIO.hpp:1017-1027 | an integer part that is read is a non-empty run of digits |
| JsonReaderSpec.FracPartAt | impl/core/shared/JsonIO.hpp:1029-1033 | the fraction is a run of digits, empty when there is no '.' |
| JsonReaderSpec.ExpPartAt | impl/core/shared/JsonIO.hpp:1035-1046 | the exponent's digits are a run of digits, empty when there is no 'e' or 'E' |
| JsonReaderSpec.NumberAt | impl/core/shared/JsonIO.hpp:1013-1071 | a number that is read moves forward within the input |
| JsonReaderSpec.ValueAt | impl/core/shared/JsonIO.hpp:886-904 | a value that is read moves forward within the input |
| JsonReaderSpec.ArrayAt | impl/core/shared/JsonIO.hpp:974-987 | an array that is read moves forward within the input |
| JsonReaderSpec.ArrayItems | impl/core/shared/JsonIO.hpp:979-985 | the element loop moves forward within the input |
| JsonReaderSpec.ArrayRest | impl/core/shared/JsonIO.hpp:981-984 | what follows an element moves forward within the input |
| JsonReaderSpec.ObjectAt | impl/core/shared/JsonIO.hpp:989-1008 | an object that is read moves forward within the input |
| JsonReaderSpec.MemberAt | impl/core/shared/JsonIO.hpp:995-1001 | a member that is read moves forward within the input |
| JsonReaderSpec.MemberValueAt | impl/core/shared/JsonIO.hpp:997-1001 | the ':' and the value after a name move forward within the input |
| JsonReaderSpec.NamedValueAt | impl/core/shared/JsonIO.hpp:999-1001 | a member's value moves forward within the input |
| JsonReaderSpec.Members | impl/core/shared/JsonIO.hpp:994-1006 | the member loop moves forward within the input |
| JsonReaderSpec.MembersRest | impl/core/shared/JsonIO.hpp:1002-1005 | what follows a member moves forward within the input |
| JsonReader.Parser.constructor | impl/core/shared/JsonIO.hpp:722-724 | a new reader is at the start of the text, depth 0, with the given limit |
| JsonReader.Parser.Advance | impl/core/shared/JsonIO.hpp:748-753 | advance moves one byte forward unless at the end, tracking line and column |
| JsonReader.Parser.AdvanceN | impl/core/shared/JsonIO.hpp:755-757 | advanceN moves n bytes forward, stopping at the end |
| JsonReader.Parser.Ws | impl/core/shared/JsonIO.hpp:842-844 | ws ends where SkipWS says |
| JsonReader.Parser.ParseLiteral | impl/core/shared/JsonIO.hpp:907-921 | parseLiteral returns what LiteralAt gives and ends where it stops |
| JsonReader.Parser.Hex4 | impl/core/shared/JsonIO.hpp:868-884 | hex4 returns what Hex4At gives and ends where it stops |
| JsonReader.Parser.EscapeU | impl/core/shared/JsonIO.hpp:944-960 | the \u escape returns what EscapeUAt gives and ends where it stops |
| JsonReader.Parser.LowSurrogate | impl/core/shared/JsonIO.hpp:946-954 | the low surrogate returns what LowSurrogateAt gives and ends where it stops |
| JsonReader.Parser.ReadUtf8Validated | impl/core/shared/JsonIO.hpp:764-811 | readUtf8Validated returns what Utf8At gives and ends where it stops |
| JsonReader.Parser.StringStep | impl/core/shared/JsonIO.hpp:927-969 | one turn of the string loop either finishes with StringBody's result or moves forward leaving StringBody's result unchanged |
| JsonReader.Parser.EscapeStep | impl/core/shared/JsonIO.hpp:931-962 | an escape either finishes with StringBody's result or moves forward leaving it unchanged |
| JsonReader.Parser.ParseString | impl/core/shared/JsonIO.hpp:923-972 | parseString returns what StringAt gives and ends where it stops |
| JsonReader.Parser.ReadDigits | impl/core/shared/JsonIO.hpp:1024 | the digit loop ends at the end of the run and returns the bytes it passed |
| JsonReader.Parser.ReadIntPart | impl/core/shared/JsonIO.hpp:1017-1027 | the integer part returns what IntPartAt gives and the digits read |
| JsonReader.Parser.ReadFracPart | impl/core/shared/JsonIO.hpp:1029-1033 | the fraction returns what FracPartAt gives and the digits read |
| JsonReader.Parser.ReadExpDigits | impl/core/shared/JsonIO.hpp:1040-1045 | the exponent loop reads the digit run and yields its value clamped at 2000000000 |
| JsonReader.Parser.ReadExpPart | impl/core/shared/JsonIO.hpp:1035-1047 | the exponent returns what ExpPartAt gives and its signed, clamped value |
| JsonReader.Parser.ParseNumber | impl/core/shared/JsonIO.hpp:1013-1071 | parseNumber returns what NumberAt gives and ends where it stops |
| JsonReader.Parser.ParseValue | impl/core/shared/JsonIO.hpp:886-904 | parseValue returns what ValueAt gives, ends where it stops and restores the depth |
| JsonReader.Parser.ParseArray | impl/core/shared/JsonIO.hpp:974-987 | parseArray returns what ArrayAt gives and ends where it stops |
| JsonReader.Parser.ArrayElement | impl/core/shared/JsonIO.hpp:980-984 | one element either finishes with ArrayItems' result or moves forward leaving it unchanged |
| JsonReader.Parser.ArraySeparator | impl/core/shared/JsonIO.hpp:981-984 | after an element, ',' goes on to the next element and ']' or anything else finishes as ArrayRest says |
| JsonReader.Parser.ParseMember | impl/core/shared/JsonIO.hpp:995-1001 | one member returns what MemberAt gives and ends where it stops |
| JsonReader.Parser.MemberValue | impl/core/shared/JsonIO.hpp:997-1001 | ':' and the value return what MemberValueAt gives |
| JsonReader.Parser.NamedValue | impl/core/shared/JsonIO.hpp:999-1001 | a member's value returns what NamedValueAt gives |
| JsonReader.Parser.ParseObject | impl/core/shared/JsonIO.hpp:989-1008 | parseObject returns what ObjectAt gives and ends where it stops |
| JsonReader.Parser.ObjectMember | impl/core/shared/JsonIO.hpp:995-1005 | one member either finishes with Members' result or moves forward leaving it unchanged |
| JsonReader.Parser.ObjectSeparator | impl/core/shared/JsonIO.hpp:1002-1005 | after a member, ',' goes on and '}' or anything else finishes as MembersRest says |
| JsonReader.Parser.ParseText | impl/core/shared/JsonIO.hpp:726-732 | parseText returns the value TextAt reads, or its error with the line and column it was raised at |
| JsonReader.EmitUtf8 | impl/core/shared/JsonIO.hpp:847-865 | emit_utf8 appends the UTF-8 encoding of the code point |
| JsonReader.FirstNonZeroIs | impl/core/shared/JsonIO.hpp:1056 | a position with only '0' before it and no '0' at it is the one find_first_not_of returns |
| JsonReader.SkipLeadingZeros | impl/core/shared/JsonIO.hpp:1056 | the scan returns the first position that is not '0' |
| JsonReader.PopTrailingZeros | impl/core/shared/JsonIO.hpp:1063-1064 | the pop loop removes exactly the trailing zeros and counts them |
| JsonReader.NormalizeDigits | impl/core/shared/JsonIO.hpp:1053-1070 | normalisation builds the Decimal Normalize describes |
| JsonReader.Parse | impl/core/shared/JsonIO.hpp:1085-1088 | jsonio::parseText returns what ParseText gives for the text and depth limit |
| JsonProps.LiteralAtIff | impl/core/shared/JsonIO.hpp:907-921 | parseLiteral succeeds exactly when the keyword is there followed by a delimiter or the end, and then returns its value just after the keyword |
| JsonProps.Utf8AtIsRfc3629 | impl/core/shared/JsonIO.hpp:764-811 | readUtf8Validated accepts exactly the UTF8-char rule of section 4 of RFC 3629, copies one whole character, and the copy is well-formed |
| JsonProps.LowSurrogateWellFormed | impl/core/shared/JsonIO.hpp:946-954 | a surrogate pair that is read yields the UTF-8 of one scalar value |
| JsonProps.EscapeUWellFormed | impl/core/shared/JsonIO.hpp:944-960 | a \u escape that is read yields the UTF-8 of one scalar value; lone low surrogates are refused |
| JsonProps.StringBodyWellFormed | impl/core/shared/JsonIO.hpp:926-971 | the string loop only ever appends well-formed UTF-8 |
| JsonProps.StringAtWellFormed | impl/core/shared/JsonIO.hpp:923-972 | every string parseString accepts is well-formed UTF-8 |
| JsonProps.RawEscaped | impl/core/shared/JsonIO.hpp:1107-1108 | bytes at or above 0x80 are written as they are |
| JsonProps.ControlEscapeReads | impl/core/shared/JsonIO.hpp:1103-1106 | the \u00XX escape of a control byte reads back as that byte |
| JsonProps.EscapedByteReads | impl/core/shared/JsonIO.hpp:1094-1110 | the escape of any ASCII byte reads back as that byte |
| JsonProps.NonAsciiStep | impl/core/shared/JsonIO.hpp:966-969 | the string loop takes a non-ASCII character in one step |
| JsonProps.Utf8ReadsChar | impl/core/shared/JsonIO.hpp:764-811 | readUtf8Validated copies a non-ASCII character exactly |
| JsonProps.EscapedReads | impl/core/shared/JsonIO.hpp:926-971 | the string loop reads the escape of well-formed bytes back as those bytes |
| JsonProps.EscapeRoundTrip | impl/core/shared/JsonIO.hpp:1115-1119 | parseString of escape(s), whatever follows, gives back s and ends just after it, for every well-formed UTF-8 s |
| JsonProps.ValueDepth | impl/core/shared/JsonIO.hpp:886-887 | parseValue at depth d accepts only values nesting at most maxDepth minus d levels |
| JsonProps.ArrayDepth | impl/core/shared/JsonIO.hpp:974-987 | every element of an array read at depth d nests at most maxDepth minus d levels |
| JsonProps.ObjectDepth | impl/core/shared/JsonIO.hpp:989-1008 | every member value of an object read at depth d nests at most maxDepth minus d levels |
| JsonProps.TextDepth | impl/core/shared/JsonIO.hpp:1085-1088 | parseText accepts only values nesting at most maxDepth levels |
| JsonProps.NumberAtParts | impl/core/shared/JsonIO.hpp:1013-1052 | a number that is read is its integer, fraction and exponent parts in turn, followed by a delimiter or the end |
| JsonProps.NumberAtSound | impl/core/shared/JsonIO.hpp:1010-1052 | parseNumber accepts only the ECMA-404 number grammar, followed by a delimiter or the end |
| JsonProps.NumberAtComplete | impl/core/shared/JsonIO.hpp:1010-1052 | parseNumber accepts every number of the ECMA-404 grammar that a delimiter or the end follows, and reads all of it |
| JsonProps.DigitsEndAt | impl/core/shared/JsonIO.hpp:1024 | a digit run followed by a non-digit or the end is where the loop stops |
| JsonProps.PartsSpan | impl/core/shared/JsonIO.hpp:1017-1033 | the integer and fraction parts that are read are the grammar's int and frac |
| JsonProps.ExpSpanOf | impl/core/shared/JsonIO.hpp:1035-1046 | the exponent that is read is the grammar's exp |
| JsonProps.PartsUnsigned | impl/core/shared/JsonIO.hpp:1017-1046 | the three parts read together span an unsigned number of the grammar |
| JsonProps.IntPartAtSpan | impl/core/shared/JsonIO.hpp:1017-1027 | the integer part of a grammar number is read to its end |
| JsonProps.FracPartAtSpan | impl/core/shared/JsonIO.hpp:1029-1033 | the fraction of a grammar number is read to its end |
| JsonProps.ExpPartAtSpan | impl/core/shared/JsonIO.hpp:1035-1046 | the exponent of a grammar number is read to its end |
| DocGenText.ToLower | impl/core/docgen/HtmlDocGen.cpp:1260 | tolower moves exactly the upper-case ASCII letters down by 32 and leaves every other character alone |
| DocGenText.ToUpper | impl/core/docgen/HtmlDocGen.cpp:1275 | toupper moves exactly the lower-case ASCII letters up by 32 and leaves every other character alone |
| DocGenText.HtmlRoundTrip | impl/core/docgen/HtmlDocGen.cpp:15-28 | reading the five entities back gives the original text: htmlEscape loses and invents nothing |
| DocGenText.HtmlEscapedIsInert | impl/core/docgen/HtmlDocGen.cpp:15-28 | the escaped text holds none of the characters less-than, greater-than, double quote and single quote |
| DocGenText.HexDigit | impl/core/docgen/HtmlDocGen.cpp:31 | a nibble is written as a digit or an upper-case letter A to F |
| DocGenText.HexValue | impl/core/docgen/HtmlDocGen.cpp:31 | the value of a hex digit is below 16 |
| DocGenText.JsonRoundTrip | impl/core/docgen/HtmlDocGen.cpp:30-54 | decoding the JSON-escaped text gives the original back: the named escapes and the \u00XX escapes are all reversible |
| DocGenText.JsonEscapedHasNoControl | impl/core/docgen/HtmlDocGen.cpp:44-46 | the escaped text holds no byte below 0x20 and no 0x7F |
| DocGenText.TrimEnd | impl/core/docgen/HtmlDocGen.cpp:1242 | the pop_back loop removes exactly the trailing '-' characters |
| DocGenText.TrimStart | impl/core/docgen/HtmlDocGen.cpp:1243 | the erase loop removes exactly the leading '-' characters |
| DocGenText.SlugBodyShape | impl/core/docgen/HtmlDocGen.cpp:1233-1243 | the mapped and trimmed text is in [a-z0-9-] and neither starts nor ends with '-' |
| DocGenText.SlugShape | impl/core/docgen/HtmlDocGen.cpp:1229-1245 | every slug, including the three special ones and "page", is non-empty, in [a-z0-9-], and neither starts nor ends with '-' |
| DocGenText.SlugMapKeeps | impl/core/docgen/HtmlDocGen.cpp:1234-1240 | text already in the slug alphabet is copied unchanged by the character map |
| DocGenText.SlugIdempotent | impl/core/docgen/HtmlDocGen.cpp:1229-1245 | slugifying a slug changes nothing |
| DocGenText.Lowered | impl/core/docgen/HtmlDocGen.cpp:1260 | each character lowered, in place |
| DocGenText.CamelScanIsLowerAlphaNum | impl/core/docgen/HtmlDocGen.cpp:1265-1283 | the camel loop keeps exactly the alphanumerics, lowered except for upper-casing, starts lower-case, and only raises upperNext once output exists |
| DocGenText.CamelOfDependencies | impl/core/docgen/HtmlDocGen.cpp:1266-1288 | the comment's example "bin-dependencies" yields "binDependencie", since one trailing 's' is dropped |
| DocGenText.PlaceholderShape | impl/core/docgen/HtmlDocGen.cpp:1291-1297 | the placeholder is bracketed by angle brackets, at least five characters long, and depends only on the parent path's last segment |
| DocGenText.PlaceholderIgnoresArraySuffix | impl/core/docgen/HtmlDocGen.cpp:1294 | a parent segment name with "[]" gives the same placeholder as name alone |
| DocGenText.LastIndexOf | impl/core/docgen/HtmlDocGen.cpp:1317-1325 | the last occurrence of a character, or none at all |
| DocGenText.Split | impl/core/docgen/HtmlDocGen.cpp:1317-1325 | cutting at a separator gives at least one segment |
| DocGenText.SplitJoin | impl/core/docgen/HtmlDocGen.cpp:1317-1325 | a non-empty path of separator-free segments is recovered from its join |
| DocGenText.PathKeyInjective | impl/core/docgen/HtmlDocGen.cpp:1317-1325 | distinct non-empty paths whose segments avoid byte 0x1F get distinct pathKeys |
| DocGenText.DisplaySegments | impl/core/docgen/HtmlDocGen.cpp:1305-1315 | displayPath shows one segment for each path segment |
| DocGenText.DisplayPathOfNamedPath | impl/core/docgen/HtmlDocGen.cpp:1299-1315 | a path without "*" or "*[]" segments is shown as its segments joined with dots |
| DocGenText.PageFileOfRoot | impl/core/docgen/HtmlDocGen.cpp:1327-1337 | pageFileFor of the empty path is schemaFileFor |
| DocGenText.PageStemShape | impl/core/docgen/HtmlDocGen.cpp:1327-1333 | a page stem is in the slug alphabet and has at least one slug and a dash per path segment |
| DocGenText.CountKeys | impl/core/docgen/HtmlDocGen.cpp:305-309 | countKeys is the explicit key count, plus one exactly when a wildcard key exists |
| DocGenText.KeysDepth | impl/core/docgen/HtmlDocGen.cpp:314-318 | the explicit-key loop gives the maximum of 1 and one more than each key type's depth |
| DocGenText.MembersDepth | impl/core/docgen/HtmlDocGen.cpp:329-331 | the union loop gives the maximum of the member depths, 0 when there are none |
| DocGenText.TableDepth | impl/core/docgen/HtmlDocGen.cpp:313-323 | a table is at least one level deep and one level deeper than each explicit and wildcard key type |
| DocGenText.UnionDepth | impl/core/docgen/HtmlDocGen.cpp:328-333 | a union is as deep as its deepest member, and 0 deep with no members |
| DocGenText.LabelIsCanonicalText | impl/core/docgen/HtmlDocGen.cpp:262-303 | typeLabel of a type without tables or annotations is the canonical CSL text the formatter prints |
| DocGenText.MemberLabelsAreCanonicalText | impl/core/docgen/HtmlDocGen.cpp:289-296 | the union members' labels, with a spaced bar between neighbours, are the formatter's text of those members |
| DocGenPlan.DedupAppend | impl/core/docgen/HtmlDocGen.cpp:1677-1692 | planning two stretches of the walk: the second sees the keys the first marked as seen |
| DocGenPlan.AddFilesAppend | impl/core/docgen/HtmlDocGen.cpp:1691 | recording two stretches of pages is recording the first, then the second |
| DocGenPlan.WalkStart | impl/core/docgen/HtmlDocGen.cpp:1680-1737 | the walk visits a non-root table before its explicit keys, then its wildcard |
| DocGenPlan.DedupUnseen | impl/core/docgen/HtmlDocGen.cpp:1683-1692 | no planned page has a key seen before, and every planned key comes from the walk |
| DocGenPlan.DedupCovers | impl/core/docgen/HtmlDocGen.cpp:1683-1692 | every walked key was seen before or is planned |
| DocGenPlan.DedupDistinct | impl/core/docgen/HtmlDocGen.cpp:1683-1692 | the planned pages have pairwise distinct path keys |
| DocGenPlan.DedupFileNames | impl/core/docgen/HtmlDocGen.cpp:1689 | every planned page is named by pageFileFor of its path |
| DocGenPlan.DedupFromItems | impl/core/docgen/HtmlDocGen.cpp:1686-1690 | each planned page is a table and path the walk visited |
| DocGenPlan.WalkShape | impl/core/docgen/HtmlDocGen.cpp:1696-1737 | walked paths extend the starting path, are non-empty, and reach tables only |
| DocGenPlan.PlanFacts | impl/core/docgen/HtmlDocGen.cpp:1672-1741 | the plan has no root page, one page per distinct path key of the walk, each for a table and named by pageFileFor |
| DocGenPlan.AddFilesKeys | impl/core/docgen/HtmlDocGen.cpp:1691 | recording pages adds exactly their keys to the file map |
| DocGenPlan.AddFilesFinds | impl/core/docgen/HtmlDocGen.cpp:1691 | with distinct keys, the file map sends each page's key to its file name |
| DocGenPlan.PlanFiles | impl/core/docgen/HtmlDocGen.cpp:1672-1741 | pathToFile of a schema holds exactly the walked keys, each sent to the pageFileFor name of its page |
| DocGenPlan.WalkDepth | impl/core/docgen/HtmlDocGen.cpp:311-337 | a table reached k segments below another is at least k levels shallower in nestedDepth |
| DocGenPlan.PlanDepth | impl/core/docgen/HtmlDocGen.cpp:1672-1741 | every planned page path is shorter than the root table's nestedDepth |
| DocGen.HtmlEscape | impl/core/docgen/HtmlDocGen.cpp:15-28 | htmlEscape replaces exactly the five special characters by their entities and copies the rest, in order |
| DocGen.JsonEscape | impl/core/docgen/HtmlDocGen.cpp:30-54 | jsonEscape writes the seven named escapes, \u00 and two upper-case hex digits for other control bytes and 0x7F, and copies the rest |
| DocGen.Slugify | impl/core/docgen/HtmlDocGen.cpp:1229-1245 | slugify returns the slug: the three special segments, else mapped, trimmed text, else "page" |
| DocGen.ToLowerAlphaNum | impl/core/docgen/HtmlDocGen.cpp:1256-1263 | the alphanumerics of the input, lowered |
| DocGen.ToLowerCamelAlphaNum | impl/core/docgen/HtmlDocGen.cpp:1265-1289 | toLowerCamelAlphaNum returns the camel-cased alphanumerics less one trailing 's', or "key" |
| DocGen.DynamicKeyPlaceholder | impl/core/docgen/HtmlDocGen.cpp:1291-1297 | the placeholder: "<key>" for an empty path or a wildcard parent, else the camel name between angle brackets with "Key" |
| DocGen.DisplaySegmentOf | impl/core/docgen/HtmlDocGen.cpp:1299-1303 | a wildcard segment is shown as the prefix's placeholder, with "[]" for "*[]"; others as they are |
| DocGen.JoinWith | impl/core/docgen/HtmlDocGen.cpp:1247-1254 | the segments with the separator between neighbours |
| DocGen.JoinWithDot | impl/core/docgen/HtmlDocGen.cpp:1247-1254 | joinWithDot puts '.' between neighbours |
| DocGen.PathKeyOf | impl/core/docgen/HtmlDocGen.cpp:1317-1325 | pathKey puts byte 0x1F between neighbours |
| DocGen.DisplayPathOf | impl/core/docgen/HtmlDocGen.cpp:1305-1315 | displayPath shows each segment after its prefix, joined with dots |
| DocGen.PageFileFor | impl/core/docgen/HtmlDocGen.cpp:1327-1333 | pageFileFor is the schema slug, a dash and slug per segment, then ".html" |
| DocGen.SchemaFileFor | impl/core/docgen/HtmlDocGen.cpp:1335-1337 | schemaFileFor is the schema slug then ".html" |
| DocGen.HtmlPagesGen.constructor | impl/core/docgen/HtmlDocGen.cpp:1348-1353 | a new generator has no plans and no file maps |
| DocGen.HtmlPagesGen.PlanTablesForSchema | impl/core/docgen/HtmlDocGen.cpp:1672-1741 | the schema's plan and file map are replaced by the plan of the walk from the root and its file names; other schemas keep theirs |
| DocGen.HtmlPagesGen.LinkToPageIfExists | impl/core/docgen/HtmlDocGen.cpp:1745-1753 | the label stays plain when the schema or the path has no planned page |
| DocGen.HtmlPagesGen.Walk | impl/core/docgen/HtmlDocGen.cpp:1679-1738 | one call of the walk lambda appends the plan of its walk and grows the seen set by the walked keys |
| DocGen.HtmlPagesGen.VisitTable | impl/core/docgen/HtmlDocGen.cpp:1681-1693 | a non-root table with a new key gets one page named by pageFileFor and one file-map entry |
| DocGen.HtmlPagesGen.WalkKeys | impl/core/docgen/HtmlDocGen.cpp:1696-1717 | the explicit-key loop walks a table under its name and a table array under name plus "[]", in order |
| DocGen.HtmlPagesGen.WalkWildcard | impl/core/docgen/HtmlDocGen.cpp:1720-1737 | the wildcard walks a table under "*" and a table array under "*[]" |
| DocGen.HtmlPagesGen.WalkChild | impl/core/docgen/HtmlDocGen.cpp:1702-1704 | one recursive call appends the child's walk after the items so far |
| DocGen.LinksAfterPlanning | impl/core/docgen/HtmlDocGen.cpp:1745-1753 | after planning, a label links to the page file of a planned path and stays plain for any path the walk did not reach |
| LangSvrUri.ToLower | impl/core/langsvr/CslLangSvr.cpp:286-287 | std::tolower in the C locale moves exactly A to Z down by 0x20 |
| LangSvrUri.HexDigit | impl/core/langsvr/CslLangSvr.cpp:260 | the hexDigits table gives the lower-case hex digit of a nibble |
| LangSvrUri.NormalizeUri | impl/core/langsvr/CslLangSvr.cpp:245-317 | normalizeUri returns "file://" and the path: a '/' inserted before a bare drive letter, every byte percent-encoded unless unreserved or reserved, escapes lower-cased, and a drive path lower-cased |
| LangSvrUri.EncodePath | impl/core/langsvr/CslLangSvr.cpp:282-297 | the encoding loop appends the encoding of the URI from byte 7 on |
| LangSvrUri.LowerPath | impl/core/langsvr/CslLangSvr.cpp:304-312 | the in-place lower-casing loop, which steps over each '%' and the two bytes after it, leaves what LowerFrom describes |
| LangSvrUri.Lowered | impl/core/langsvr/CslLangSvr.cpp:310 | each byte passed through tolower, in place |
| LangSvrUri.EncodeFromEncoded | impl/core/langsvr/CslLangSvr.cpp:282-297 | the encoding loop writes only escapes of two hex digits and allowed bytes |
| LangSvrUri.LoweredEncoded | impl/core/langsvr/CslLangSvr.cpp:304-312 | lower-casing an encoded path leaves it encoded |
| LangSvrUri.LoweredFrom | impl/core/langsvr/CslLangSvr.cpp:304-312 | the path as the loop leaves it from position j on keeps its length |
| LangSvrUri.LowerFromLowers | impl/core/langsvr/CslLangSvr.cpp:304-312 | on an encoded path, skipping the escapes loses nothing: the loop lower-cases every byte |
| LangSvrUri.PathEncoded | impl/core/langsvr/CslLangSvr.cpp:278-297 | the path the encoding loop builds, the inserted '/' included, is encoded |
| LangSvrUri.NormalizeShape | impl/core/langsvr/CslLangSvr.cpp:299-316 | the result is "file://" and the path, lower-cased exactly when it starts with '/', a letter and "%3A" or "%3a" |
| LangSvrUri.NormalizedIsEncoded | impl/core/langsvr/CslLangSvr.cpp:245-317 | the result starts with "file://", and after it every '%' begins two lower-case hex digits and every other byte needs no escaping (section 2 of RFC 3986) |
| LangSvrUri.EncodeFromKeepsOctets | impl/core/langsvr/CslLangSvr.cpp:282-297 | percent-decoding the encoded path gives the bytes the input denotes (section 6.2.2.2 of RFC 3986) |
| LangSvrUri.NormalizeKeepsOctets | impl/core/langsvr/CslLangSvr.cpp:245-317 | away from drive paths the normalised path denotes the same bytes as the path the client sent |
| LangSvrUri.EncodeFromFixed | impl/core/langsvr/CslLangSvr.cpp:284-290 | an already encoded path goes through the loop unchanged |
| LangSvrUri.WindowsPathIsDrive | impl/core/langsvr/CslLangSvr.cpp:266-302 | the path is lower-cased only when the input is a drive path |
| LangSvrUri.NoBareDrive | impl/core/langsvr/CslLangSvr.cpp:278-280 | no path starts with a bare letter and "%3a": the '/' is inserted before such a drive |
| LangSvrUri.NormalizeIdempotent | impl/core/langsvr/CslLangSvr.cpp:245-317 | normalising a normalised URI changes nothing, so a document keeps its cache key |
| LangSvrUri.DrivePathsLowered | impl/core/langsvr/CslLangSvr.cpp:266-312 | a drive path, after at most one '/', always comes out as "file:///" and the lower-cased path |
| LangSvrOutput.IndexOf | impl/core/langsvr/CslLangSvr.cpp:710 | std::find gives the first index holding the name, or the list's length when it is absent |
| LangSvrOutput.TokenTypeIndexSpec | impl/core/langsvr/CslLangSvr.cpp:704-712 | the index always names a legend entry: the type's own entry when listed, 8 ("operator") otherwise |
| LangSvrOutput.LegendIndexUnique | impl/core/langsvr/CslLangSvr.cpp:705-711 | the legend's names are distinct, so a listed name's index is its only position |
| LangSvrOutput.SizeSub | impl/core/langsvr/CslLangSvr.cpp:681-684 | a size_t difference stays below 2^64 |
| LangSvrOutput.Fields | impl/core/langsvr/CslLangSvr.cpp:681-687 | each token contributes five integers |
| LangSvrOutput.Encode | impl/core/langsvr/CslLangSvr.cpp:679-691 | the data has five integers per token |
| LangSvrOutput.SemanticTokenData | impl/core/langsvr/CslLangSvr.cpp:675-691 | the token loop produces the relative encoding of the tokens starting from (0, 0) |
| LangSvrOutput.EncodeFields | impl/core/langsvr/CslLangSvr.cpp:684-687 | the third, fourth and fifth integers of each token are its length, its type index and 0 |
| LangSvrOutput.SemanticTypesInLegend | impl/core/langsvr/CslLangSvr.cpp:685-711 | every type field names a legend entry, the token's own type when it is listed |
| LangSvrOutput.Starts | impl/core/langsvr/CslLangSvr.cpp:689-690 | the start positions of the tokens, in order |
| LangSvrOutput.FieldsDecode | impl/core/langsvr/CslLangSvr.cpp:681-682 | adding one token's deltas to a predecessor at or before it gives its start |
| LangSvrOutput.DecodeRecoversStarts | impl/core/langsvr/CslLangSvr.cpp:675-691 | for tokens in document order no difference wraps around, and summing the deltas recovers every start position |
| LangSvrOutput.TokenLengthSpec | impl/core/langsvr/CslLangSvr.cpp:684 | the length is the column difference within one line and the text's length across lines |
| LangSvrOutput.WithSeverity | impl/core/langsvr/CslLangSvr.cpp:576-617 | each entry becomes one diagnostic with its range, its message and the given severity, in order |
| LangSvrOutput.DiagnosticsFromLists | impl/core/langsvr/CslLangSvr.cpp:574-619 | the errors with severity 1, then the warnings with severity 2 |
| LangSvrOutput.DiagnosticsForDocument | impl/core/langsvr/CslLangSvr.cpp:626-633 | the diagnostics of a cached document are built from its lex and parse errors, then its lex and parse warnings |
| LangSvrOutput.DocumentDiagnosticsOrder | impl/core/langsvr/CslLangSvr.cpp:621-634 | the order is lex errors, parse errors, lex warnings, parse warnings, each kept as reported, errors at severity 1 and warnings at 2 |
| LangSvrOutput.SeverityMarksErrors | impl/core/langsvr/CslLangSvr.cpp:574-619 | exactly the errors are reported with severity 1 |
| LangSvrTables.DescendKeys | impl/core/langsvr/CslLangSvr.cpp:871-876 | the key loop keeps the last key whose type yields a candidate, else the table itself |
| LangSvrTables.DescendMembers | impl/core/langsvr/CslLangSvr.cpp:889-894 | the member loop keeps the last member that yields a candidate |
| LangSvrTables.DescendMethod | impl/core/langsvr/CslLangSvr.cpp:865-899 | descend returns the candidate Descend describes |
| LangSvrTables.DescendFinds | impl/core/langsvr/CslLangSvr.cpp:865-899 | a found table contains the position, lies within the type, and is its own deepest table |
| LangSvrTables.TableAlwaysFinds | impl/core/langsvr/CslLangSvr.cpp:867-881 | a table yields a candidate exactly when its region contains the position |
| LangSvrTables.FindDeepestTable | impl/core/langsvr/CslLangSvr.cpp:900-918 | the schema loop returns the best candidate Best describes |
| LangSvrTables.BestIsNarrowestFirst | impl/core/langsvr/CslLangSvr.cpp:900-918 | there is no result exactly when no schema yields a candidate; otherwise it is the first candidate of fewest lines, ties broken by fewest columns |
| LangSvrFolding.StackStarts | impl/core/langsvr/CslLangSvr.cpp:1340-1343 | the brace stack holds, in order, the start positions of the still-open "{" tokens |
| LangSvrFolding.FoldBraces | impl/core/langsvr/CslLangSvr.cpp:1339-1361 | the brace loop produces exactly the brace ranges: one per "}" that closes an open "{" on a different line, in the order the closes appear |
| LangSvrFolding.BraceMatchesSound | impl/core/langsvr/CslLangSvr.cpp:1342-1348 | each "}" closes the most recent unclosed "{": every match pairs a "{" with a later "}" around a balanced stretch of braces |
| LangSvrFolding.OpenBraceUnique | impl/core/langsvr/CslLangSvr.cpp:1345-1347 | the "{" a "}" closes is the only candidate, since no earlier "{" has a balanced stretch up to the same "}" |
| LangSvrFolding.UnmatchedCloseIgnored | impl/core/langsvr/CslLangSvr.cpp:1345 | a "}" with an empty stack matches nothing and leaves the scan as it was |
| LangSvrFolding.BraceFoldsFacts | impl/core/langsvr/CslLangSvr.cpp:1349-1358 | every brace range starts and ends on different lines and has kind "range" |
| LangSvrFolding.RunEnd | impl/core/langsvr/CslLangSvr.cpp:1366-1370 | the end of a comment run lies at or after its start and inside the token list |
| LangSvrFolding.SkipRun | impl/core/langsvr/CslLangSvr.cpp:1366-1370 | the inner loop stops on the last comment of the run that goes on from where it starts |
| LangSvrFolding.RunEndFacts | impl/core/langsvr/CslLangSvr.cpp:1366-1370 | every token after the start up to the run end is a comment, and the token after the run end, if any, is not |
| LangSvrFolding.FoldComments | impl/core/langsvr/CslLangSvr.cpp:1362-1387 | the comment loop appends exactly the comment ranges of the token list to the ranges found so far |
| LangSvrFolding.CommentRangesSound | impl/core/langsvr/CslLangSvr.cpp:1364-1385 | every comment range covers a whole run of comments and spans more than one line, with kind "comment" |
| LangSvrFolding.NoCommentsNoRanges | impl/core/langsvr/CslLangSvr.cpp:1362-1387 | a token list without comment tokens gives no comment range |
| LangSvrFolding.LexedWithoutCommentsFoldNone | impl/core/langsvr/CslLangSvr.cpp:1338 | the list the handler folds is lexed without comments, so it never yields a comment range |
| LangSvrFolding.TwoCommentLinesFold | impl/core/langsvr/CslLangSvr.cpp:1362-1385 | two comment lines in a row fold into one range from the start of the first to the end of the second |
| LangSvrFolding.FoldingRanges | impl/core/langsvr/CslLangSvr.cpp:1332-1393 | the handler's ranges are the brace ranges followed by the comment ranges |
| LangSvrRpc.Ascii | impl/core/langsvr/CslLangSvr.cpp:325 | a name written as a string literal becomes the bytes of its characters, one each |
| LangSvrRpc.ByteText | impl/core/langsvr/CslLangSvr.cpp:343 | a byte string read as text keeps its length and each byte value |
| LangSvrRpc.ByteTextAscii | impl/core/langsvr/CslLangSvr.cpp:343-344 | reading back the bytes of an ASCII name gives the name |
| LangSvrRpc.AsciiInjective | impl/core/langsvr/CslLangSvr.cpp:344-391 | distinct ASCII names have distinct bytes, so the method dispatch never confuses two of them |
| LangSvrRpc.Get | impl/core/shared/JsonIO.hpp:423-431 | indexing an object by key succeeds exactly when hasKey holds for that key |
| LangSvrRpc.StringAt | impl/core/shared/JsonIO.hpp:541-542 | a string read along a key chain succeeds only when the chain leads to a string holding that value |
| LangSvrRpc.BoolAt | impl/core/shared/JsonIO.hpp:536-537 | a flag read along a key chain succeeds only when the chain leads to a boolean holding that value |
| LangSvrRpc.HasPathFound | impl/core/shared/JsonIO.hpp:712-716 | testing each key of a chain with hasKey holds exactly when indexing along the chain does not throw |
| LangSvrRpc.MultilineSupportIff | impl/core/langsvr/CslLangSvr.cpp:463-467 | the intended capability test reports support exactly when the client sends true at capabilities.textDocument.semanticTokens.multilineTokenSupport, and throws only when a non-boolean is there |
| LangSvrRpc.AsWrittenNeedsTopLevelKeys | impl/core/langsvr/CslLangSvr.cpp:463-467 | as written, parameters without a top-level textDocument member always read as no multi-line support |
| LangSvrRpc.MultilineClientMisread | impl/core/langsvr/CslLangSvr.cpp:463-467 | a client that announces multi-line support in the standard place is read as not supporting it as written, and as supporting it once corrected |
| LangSvrRpc.RequestIdOf | impl/core/langsvr/CslLangSvr.cpp:320-323 | the id echoed in an error reply is the request's id when it has one, and null otherwise |
| LangSvrRpc.CodeOf | impl/core/langsvr/CslLangSvr.cpp:393-400 | the code read from an error object is a member named code holding that integer, and none is read when no such member exists |
| LangSvrRpc.AsWrittenErrorHasNoCode | impl/core/langsvr/CslLangSvr.cpp:393-413 | as written, the error objects of handleRequest carry their code under "error" and so have no code member a client can read |
| LangSvrRpc.ErrorObjectConforms | impl/core/langsvr/CslLangSvr.cpp:393-413 | the corrected error object is a JSON-RPC 2.0 error object from which a client reads back the code and message it was built with |
| LangSvrSpec.ExitCodeOf | impl/core/langsvr/CslLangSvr.cpp:418-420 | the exit code is -1 exactly while the server has not exited, 0 exactly after an exit that followed shutdown, and 1 exactly after an exit without one |
| LangSvrSpec.Analyze | impl/core/langsvr/CslLangSvr.cpp:511-525 | a document's entry holds its text, the tokens lexed without comments and the tokens lexed with them, both under the client's multi-line setting |
| LangSvr.LanguageServer.constructor | impl/core/langsvr/CslLangSvr.cpp:109-115 | a new server keeps the lexer and parser it is given and starts uninitialised, not shut down, not exited, with an empty cache |
| LangSvr.LanguageServer.GetServerExitCode | impl/core/langsvr/CslLangSvr.cpp:418-420 | the method returns the exit code the lifecycle flags determine |
| LangSvr.LanguageServer.HandleInitialize | impl/core/langsvr/CslLangSvr.cpp:457-501 | initialize refuses a second call, otherwise marks the server initialised, reads the trace and capability and answers with the capabilities |
| LangSvr.LanguageServer.Configure | impl/core/langsvr/CslLangSvr.cpp:462-500 | after the flag is set, initialize reads the trace and the multi-line capability and answers under the request id, or throws on a malformed request |
| LangSvr.LanguageServer.HandleInitialized | impl/core/langsvr/CslLangSvr.cpp:503-509 | initialized refuses a second call and otherwise marks the client initialised and sends nothing |
| LangSvr.LanguageServer.HandleShutdown | impl/core/langsvr/CslLangSvr.cpp:529-536 | shutdown marks the server shut down and answers null under the request id |
| LangSvr.LanguageServer.HandleExit | impl/core/langsvr/CslLangSvr.cpp:538-542 | exit marks the server exited and no longer initialised and sends nothing |
| LangSvr.LanguageServer.RecomputeDocument | impl/core/langsvr/CslLangSvr.cpp:511-527 | the cache entry of the URI's normal form becomes the analysis of the text, and no other entry changes |
| LangSvr.LanguageServer.PublishDiagnosticsFor | impl/core/langsvr/CslLangSvr.cpp:636-642 | a publishDiagnostics notification carrying the cached document's diagnostics is sent under the URI as given |
| LangSvr.LanguageServer.Reanalyze | impl/core/langsvr/CslLangSvr.cpp:547-548 | the document is recomputed and then its diagnostics are published |
| LangSvr.LanguageServer.HandleDidOpen | impl/core/langsvr/CslLangSvr.cpp:544-550 | didOpen reads the text and URI, recomputes the document and publishes its diagnostics, or throws on a malformed request |
| LangSvr.LanguageServer.HandleDidChange | impl/core/langsvr/CslLangSvr.cpp:552-561 | didChange recomputes the document from the text of the last change and publishes, and does nothing for an empty change list |
| LangSvr.LanguageServer.HandleDidClose | impl/core/langsvr/CslLangSvr.cpp:563-567 | didClose erases the cache entry of the URI's normal form |
| LangSvr.LanguageServer.HandleSetTrace | impl/core/langsvr/CslLangSvr.cpp:569-572 | setTrace records the trace value sent |
| LangSvr.LanguageServer.ComputeAnswer | impl/core/langsvr/CslLangSvr.cpp:644-702 | the loops of the semantic token, diagnostic and folding handlers compute the answer the specification assigns to a cached document |
| LangSvr.LanguageServer.HandleQuery | impl/core/langsvr/CslLangSvr.cpp:1332-1337 | a query throws "Document not found" for an uncached URI and otherwise answers from the cache entry of its normal form, changing nothing |
| LangSvr.LanguageServer.Dispatch | impl/core/langsvr/CslLangSvr.cpp:343-391 | each method name reaches its own handler |
| LangSvr.LanguageServer.Synchronize | impl/core/langsvr/CslLangSvr.cpp:350-358 | the document synchronisation methods reach didOpen, didChange and didClose |
| LangSvr.LanguageServer.Control | impl/core/langsvr/CslLangSvr.cpp:344-360 | exit, shutdown and setTrace reach their handlers |
| LangSvr.LanguageServer.AnswerRequest | impl/core/langsvr/CslLangSvr.cpp:362-401 | queries are answered from the cache, handlers outside the model are marked, and unknown methods get the method-not-found reply, all without changing the server |
| LangSvr.LanguageServer.Route | impl/core/langsvr/CslLangSvr.cpp:325-342 | initialize is always served, everything else needs an initialised server, then an initialised client, then no shutdown unless it is exit |
| LangSvr.LanguageServer.HandleRequest | impl/core/langsvr/CslLangSvr.cpp:319-416 | handling a request gives the state and reply of the specification, with every exception turned into an internal-error reply under the request id |
| LangSvrProps.MethodKindName | impl/core/langsvr/CslLangSvr.cpp:343-391 | the method a name selects gives that name back, so no two names share a handler |
| LangSvrProps.InitializeOnlyOnce | impl/core/langsvr/CslLangSvr.cpp:458-460 | a second initialize is refused with an internal error and changes nothing |
| LangSvrProps.HandleKind | impl/core/langsvr/CslLangSvr.cpp:319-416 | a request whose method selects a kind goes through the gates with that kind and its own id |
| LangSvrProps.ConfigureState | impl/core/langsvr/CslLangSvr.cpp:462-467 | the rest of initialize changes only the trace and the multi-line flag, whether or not it throws |
| LangSvrProps.ConfigureReply | impl/core/langsvr/CslLangSvr.cpp:462-500 | when initialize returns, it answers with the capabilities under the id, the multi-line flag is set exactly when the client announces support, and a missing trace leaves the trace empty |
| LangSvrProps.FirstInitialize | impl/core/langsvr/CslLangSvr.cpp:325-326 | the first initialize marks the server initialised, changes nothing else but the trace and the flag, and answers with the capabilities |
| LangSvrProps.NothingBeforeInitialize | impl/core/langsvr/CslLangSvr.cpp:329-331 | before initialize, every other request is refused with an internal error under its id and changes nothing |
| LangSvrProps.NothingBeforeInitialized | impl/core/langsvr/CslLangSvr.cpp:336-338 | between initialize and initialized, every other request is refused and changes nothing |
| LangSvrProps.InitializedOnce | impl/core/langsvr/CslLangSvr.cpp:332-333 | initialized is accepted once after initialize, and refused after that |
| LangSvrProps.OnlyExitAfterShutdown | impl/core/langsvr/CslLangSvr.cpp:339-341 | after shutdown, every method but exit is refused and changes nothing |
| LangSvrProps.ExitDecidesCode | impl/core/langsvr/CslLangSvr.cpp:538-542 | exit marks the server exited and uninitialised, and the exit code is 0 after a shutdown and 1 without one |
| LangSvrProps.ShutdownThenExit | impl/core/langsvr/CslLangSvr.cpp:529-542 | shutdown answers null under its id, and an exit after it gives exit code 0 |
| LangSvrProps.UnknownMethod | impl/core/langsvr/CslLangSvr.cpp:393-401 | an unknown method gets the method-not-found code and changes nothing |
| LangSvrProps.FeatureChangesNothing | impl/core/langsvr/CslLangSvr.cpp:362-391 | the handlers outside the model leave the server as it was |
| LangSvrProps.QueriesChangeNothing | impl/core/langsvr/CslLangSvr.cpp:368-388 | folding, semantic tokens and pull diagnostics never change the server |
| LangSvrProps.QueryNeedsDocument | impl/core/langsvr/CslLangSvr.cpp:1334-1337 | a query about a URI whose normal form is not cached is answered "Document not found" |
| LangSvrProps.QueryAnswers | impl/core/langsvr/CslLangSvr.cpp:1333-1392 | a query about a cached document answers from the entry of the URI's normal form under the request id |
| LangSvrProps.OpenCaches | impl/core/langsvr/CslLangSvr.cpp:544-550 | didOpen caches the analysis under the URI's normal form, replacing only that entry, and publishes its diagnostics under the URI as sent |
| LangSvrProps.OpenThenFold | impl/core/langsvr/CslLangSvr.cpp:1332-1393 | after didOpen, a folding request for any URI with the same normal form answers from the opened text |
| LangSvrProps.CloseForgets | impl/core/langsvr/CslLangSvr.cpp:563-567 | didClose drops the entry of the URI's normal form and no other |
| LangSvrProps.EmptyChangeIgnored | impl/core/langsvr/CslLangSvr.cpp:555 | a didChange with an empty change list leaves the server as it was |
| LangSvrProps.CachedTokensHaveNoComments | impl/core/langsvr/CslLangSvr.cpp:515-518 | the token list cached without comments holds no comment token, so it yields no comment range |
| LangSvrProps.FoldingAsWrittenLosesComments | impl/core/langsvr/CslLangSvr.cpp:1338-1387 | as written, the folding answer of any lexed document holds the brace ranges and no comment range |
| LangSvrProps.InitialValid | impl/core/langsvr/CslLangSvr.cpp:109-115 | the initial state satisfies the server invariant |
| LangSvrProps.ReanalyzeValid | impl/core/langsvr/CslLangSvr.cpp:511-527 | recomputing a document keeps every cache key a normalised URI |
| LangSvrProps.DidOpenValid | impl/core/langsvr/CslLangSvr.cpp:544-550 | didOpen keeps the invariant |
| LangSvrProps.DidChangeValid | impl/core/langsvr/CslLangSvr.cpp:552-561 | didChange keeps the invariant |
| LangSvrProps.SynchronizeValid | impl/core/langsvr/CslLangSvr.cpp:350-358 | the document synchronisation methods keep the invariant |
| LangSvrProps.ControlValid | impl/core/langsvr/CslLangSvr.cpp:529-572 | shutdown, exit and setTrace keep the invariant once the handshake is done |
| LangSvrProps.DispatchValid | impl/core/langsvr/CslLangSvr.cpp:343-401 | every handler the dispatch reaches keeps the invariant |
| LangSvrProps.InitializeValid | impl/core/langsvr/CslLangSvr.cpp:457-501 | initialize keeps the invariant |
| LangSvrProps.RouteValid | impl/core/langsvr/CslLangSvr.cpp:325-403 | the lifecycle gates keep the invariant whatever method they are given |
| LangSvrProps.HandleValid | impl/core/langsvr/CslLangSvr.cpp:319-416 | handling any message keeps the invariant: shutdown and exit only after the handshake, and every cache key a normalised URI |

## Left out

- Regular expressions: the recognisers are prefix-language predicates, not a regex engine. `HasIncompleteStringOrId` (impl/core/lexer/CslLexer.cpp:228-258) is a parameter `incomplete` of the lexer, because its leftmost-match erasure is the engine's behaviour.
- `extractQuotedIdentifierContent` is a parameter `unquote` of the lexer. CslStringUtils.h is not part of this model.
- CslRepresentation.h and FilePosition.h are not part of this model. The representation is declared from the accessors the core calls. A position is a (line, column) pair whose default value is (0, 0), and a region contains the positions from its start to its end inclusive.
- Shared-pointer ownership, `dynamic_cast` and aliasing: schemas, types and expressions are immutable datatypes. The token-to-declaration map stores references to keys and tables by value.
- JSON floating point: `Decimal(double)`, `Decimal(float)` and `get<floating>` are IEEE-754 behaviour. The `BigInt` multiplication by powers of two serves only those paths. The `sci_len` estimate of `emitNumber` works on integers and is modelled by JsonNumber.SciLen.
- JSON error messages: the reader reports the line and column of an error and its message text. The source snippet it quotes, formatted with `snprintf`, is left out.
- `jsonio::Value::push_back` and `clear` return the new value rather than updating in place, because `Value` has value semantics and no aliasing is observable.
- `std::sort` and `std::unordered_map` are modelled by what they guarantee: the sorted key order is the unique ascending arrangement of the key names, and a map lookup finds the entry with the looked-up key.
- Language server transport: `readLSPContent`, `writeLSPContent`, the EMSCRIPTEN byte fix-ups, `run`, `sendRequest`, `sendResponse` and `sendNotification` read and write streams. Published notifications are recorded in a sequence instead.
- Language server features outside the lifecycle, output and structure core: completion, hover, definition, references, rename, formatting and HTML generation are recognised by the dispatch and marked as unmodelled replies. Their handlers depend on edits from TextEdit.h and FindPairs.h, which are not part of this model.
- HTML, CSS and JavaScript payloads of the documentation generator: `siteCss`, `siteJs`, `renderTopbar`, `renderSidebar`, `pageWrap`, `renderKeysTable`, `renderConstraints`, the page renderers, `buildStructureGraphJson` and `typeBadges` are markup text with no behaviour beyond concatenation.
- The command-line driver (impl/core/driver/Csl.cpp) and the test runner with its thread and timeout (impl/core/driver/Test.cpp) are I/O and concurrency.
- DocGen.HtmlPagesGen.LinkToPageIfExists: its own ensures states only the case without a planned page. The case with a page is stated by DocGen.LinksAfterPlanning, because it needs the planning walk.
- ParserSpec.ParseExpression: its own ensures states only that the position never moves back and stays within the input. What it builds is stated by the method of CslParser.Parser proved equal to it and by the lemmas of ParserProps. It follows the corrected halves of the Findings and does not capture the stall of the list-argument loop on a token that starts no expression (Findings, CslParser.cpp:541-544).
- ParserSpec.BinaryLoop: its own ensures states only that the position never moves back and stays within the input. What it builds is stated by the method of CslParser.Parser proved equal to it and by the lemmas of ParserProps. It follows the corrected halves of the Findings and does not capture the stall of the list-argument loop on a token that starts no expression (Findings, CslParser.cpp:541-544).
- ParserSpec.Ternary: its own ensures states only that the position never moves back and stays within the input. What it builds is stated by the method of CslParser.Parser proved equal to it and by the lemmas of ParserProps. It follows the corrected halves of the Findings and does not capture the stall of the list-argument loop on a token that starts no expression (Findings, CslParser.cpp:541-544).
- ParserSpec.ParseUnary: its own ensures states only that the position never moves back and stays within the input. What it builds is stated by the method of CslParser.Parser proved equal to it and by the lemmas of ParserProps. It follows the corrected halves of the Findings and does not capture the stall of the list-argument loop on a token that starts no expression (Findings, CslParser.cpp:541-544).
- ParserSpec.ParsePrimary: its own ensures states only that the position never moves back and stays within the input. What it builds is stated by the method of CslParser.Parser proved equal to it and by the lemmas of ParserProps. It follows the corrected halves of the Findings and does not capture the stall of the list-argument loop on a token that starts no expression (Findings, CslParser.cpp:541-544).
- ParserSpec.DelimitedArgs: its own ensures states only that the position never moves back and stays within the input. What it builds is stated by the method of CslParser.Parser proved equal to it and by the lemmas of ParserProps. It follows the corrected halves of the Findings and does not capture the stall of the list-argument loop on a token that starts no expression (Findings, CslParser.cpp:541-544).
- ParserSpec.ParseArg: its own ensures states only that the position never moves back and stays within the input. What it builds is stated by the method of CslParser.Parser proved equal to it and by the lemmas of ParserProps. It follows the corrected halves of the Findings and does not capture the stall of the list-argument loop on a token that starts no expression (Findings, CslParser.cpp:541-544).
- ParserSpec.ParseArg: it evaluates parseExpression() before building the region of a single argument (CslParser.cpp:549), an order C++17 leaves unspecified. If the Region is built first, its end is the end of the token before the argument, so the region ends before it starts. When the argument is the first token of the input, that read is undefined behaviour.
- ParserSpec.ListElems: its own ensures states only that the position never moves back and stays within the input. What it builds is stated by the method of CslParser.Parser proved equal to it and by the lemmas of ParserProps. It follows the corrected halves of the Findings and does not capture the stall of the list-argument loop on a token that starts no expression (Findings, CslParser.cpp:541-544).
- ParserSpec.ParseAnnotation: its own ensures states only that the position never moves back and stays within the input. What it builds is stated by the method of CslParser.Parser proved equal to it and by the lemmas of ParserProps. It follows the corrected halves of the Findings and does not capture the stall of the list-argument loop on a token that starts no expression (Findings, CslParser.cpp:541-544).
- ParserSpec.AnnotationArgs: its own ensures states only that the position never moves back and stays within the input. What it builds is stated by the method of CslParser.Parser proved equal to it and by the lemmas of ParserProps. It follows the corrected halves of the Findings and does not capture the stall of the list-argument loop on a token that starts no expression (Findings, CslParser.cpp:541-544).
- ParserSpec.Annotations: its own ensures states only that the position never moves back and stays within the input. What it builds is stated by the method of CslParser.Parser proved equal to it and by the lemmas of ParserProps. It follows the corrected halves of the Findings and does not capture the right grouping of binary + and - (Findings, CslParser.cpp:1120-1133); the stall of the list-argument loop on a token that starts no expression (Findings, CslParser.cpp:541-544).
- ParserSpec.ConstraintList: its own ensures states only that the position never moves back and stays within the input. What it builds is stated by the method of CslParser.Parser proved equal to it and by the lemmas of ParserProps. It follows the corrected halves of the Findings and does not capture the right grouping of binary + and - (Findings, CslParser.cpp:1120-1133); the stall of the list-argument loop on a token that starts no expression (Findings, CslParser.cpp:541-544).
- ParserSpec.ParseType: its own ensures states only that the position never moves back and stays within the input. What it builds is stated by the method of CslParser.Parser proved equal to it and by the lemmas of ParserProps. It follows the corrected halves of the Findings and does not capture the right grouping of binary + and - (Findings, CslParser.cpp:1120-1133); the stall of the list-argument loop on a token that starts no expression (Findings, CslParser.cpp:541-544); the Number primitive inferred for a Duration default (Findings, CslParser.cpp:730); the clash of non-numeric literals with number in a union (Findings, CslParser.cpp:824-827); the second mapping of b in a.b against the enclosing keys (Findings, CslParser.cpp:392-393).
- ParserSpec.UnionLoop: its own ensures states only that the position never moves back and stays within the input. What it builds is stated by the method of CslParser.Parser proved equal to it and by the lemmas of ParserProps. It follows the corrected halves of the Findings and does not capture the right grouping of binary + and - (Findings, CslParser.cpp:1120-1133); the stall of the list-argument loop on a token that starts no expression (Findings, CslParser.cpp:541-544); the Number primitive inferred for a Duration default (Findings, CslParser.cpp:730); the clash of non-numeric literals with number in a union (Findings, CslParser.cpp:824-827); the second mapping of b in a.b against the enclosing keys (Findings, CslParser.cpp:392-393).
- ParserSpec.ParsePostfixType: its own ensures states only that the position never moves back and stays within the input. What it builds is stated by the method of CslParser.Parser proved equal to it and by the lemmas of ParserProps. It follows the corrected halves of the Findings and does not capture the right grouping of binary + and - (Findings, CslParser.cpp:1120-1133); the stall of the list-argument loop on a token that starts no expression (Findings, CslParser.cpp:541-544); the Number primitive inferred for a Duration default (Findings, CslParser.cpp:730); the clash of non-numeric literals with number in a union (Findings, CslParser.cpp:824-827); the second mapping of b in a.b against the enclosing keys (Findings, CslParser.cpp:392-393).
- ParserSpec.PostfixLoop: its own ensures states only that the position never moves back and stays within the input. What it builds is stated by the method of CslParser.Parser proved equal to it and by the lemmas of ParserProps. It follows the corrected halves of the Findings and does not capture the right grouping of binary + and - (Findings, CslParser.cpp:1120-1133); the stall of the list-argument loop on a token that starts no expression (Findings, CslParser.cpp:541-544); the Number primitive inferred for a Duration default (Findings, CslParser.cpp:730); the clash of non-numeric literals with number in a union (Findings, CslParser.cpp:824-827); the second mapping of b in a.b against the enclosing keys (Findings, CslParser.cpp:392-393).
- ParserSpec.ParsePrimaryType: its own ensures states only that the position never moves back and stays within the input. What it builds is stated by the method of CslParser.Parser proved equal to it and by the lemmas of ParserProps. It follows the corrected halves of the Findings and does not capture the right grouping of binary + and - (Findings, CslParser.cpp:1120-1133); the stall of the list-argument loop on a token that starts no expression (Findings, CslParser.cpp:541-544); the Number primitive inferred for a Duration default (Findings, CslParser.cpp:730); the clash of non-numeric literals with number in a union (Findings, CslParser.cpp:824-827); the second mapping of b in a.b against the enclosing keys (Findings, CslParser.cpp:392-393).
- ParserSpec.PrimaryMembers: its own ensures states only that the position never moves back and stays within the input. What it builds is stated by the method of CslParser.Parser proved equal to it and by the lemmas of ParserProps. It follows the corrected halves of the Findings and does not capture the right grouping of binary + and - (Findings, CslParser.cpp:1120-1133); the stall of the list-argument loop on a token that starts no expression (Findings, CslParser.cpp:541-544); the Number primitive inferred for a Duration default (Findings, CslParser.cpp:730); the clash of non-numeric literals with number in a union (Findings, CslParser.cpp:824-827); the second mapping of b in a.b against the enclosing keys (Findings, CslParser.cpp:392-393).
- ParserSpec.PrimaryMember: its own ensures states only that the position never moves back and stays within the input. What it builds is stated by the method of CslParser.Parser proved equal to it and by the lemmas of ParserProps. It follows the corrected halves of the Findings and does not capture the right grouping of binary + and - (Findings, CslParser.cpp:1120-1133); the stall of the list-argument loop on a token that starts no expression (Findings, CslParser.cpp:541-544); the Number primitive inferred for a Duration default (Findings, CslParser.cpp:730); the clash of non-numeric literals with number in a union (Findings, CslParser.cpp:824-827); the second mapping of b in a.b against the enclosing keys (Findings, CslParser.cpp:392-393).
- ParserSpec.ParseTableType: its own ensures states only that the position never moves back and stays within the input. What it builds is stated by the method of CslParser.Parser proved equal to it and by the lemmas of ParserProps. It follows the corrected halves of the Findings and does not capture the right grouping of binary + and - (Findings, CslParser.cpp:1120-1133); the stall of the list-argument loop on a token that starts no expression (Findings, CslParser.cpp:541-544); the Number primitive inferred for a Duration default (Findings, CslParser.cpp:730); the clash of non-numeric literals with number in a union (Findings, CslParser.cpp:824-827); the second mapping of b in a.b against the enclosing keys (Findings, CslParser.cpp:392-393).
- ParserSpec.TableBody: its own ensures states only that the position never moves back and stays within the input. What it builds is stated by the method of CslParser.Parser proved equal to it and by the lemmas of ParserProps. It follows the corrected halves of the Findings and does not capture the right grouping of binary + and - (Findings, CslParser.cpp:1120-1133); the stall of the list-argument loop on a token that starts no expression (Findings, CslParser.cpp:541-544); the Number primitive inferred for a Duration default (Findings, CslParser.cpp:730); the clash of non-numeric literals with number in a union (Findings, CslParser.cpp:824-827); the second mapping of b in a.b against the enclosing keys (Findings, CslParser.cpp:392-393).
- ParserSpec.KeyBody: its own ensures states only that the position never moves back and stays within the input. What it builds is stated by the method of CslParser.Parser proved equal to it and by the lemmas of ParserProps. It follows the corrected halves of the Findings and does not capture the right grouping of binary + and - (Findings, CslParser.cpp:1120-1133); the stall of the list-argument loop on a token that starts no expression (Findings, CslParser.cpp:541-544); the Number primitive inferred for a Duration default (Findings, CslParser.cpp:730); the clash of non-numeric literals with number in a union (Findings, CslParser.cpp:824-827); the second mapping of b in a.b against the enclosing keys (Findings, CslParser.cpp:392-393).
- ParserSpec.TypedDefault: its own ensures states only that the position never moves back and stays within the input. What it builds is stated by the method of CslParser.Parser proved equal to it and by the lemmas of ParserProps. It follows the corrected halves of the Findings and does not capture the right grouping of binary + and - (Findings, CslParser.cpp:1120-1133); the stall of the list-argument loop on a token that starts no expression (Findings, CslParser.cpp:541-544).
- ParserSpec.InferredKey: its own ensures states only that the position never moves back and stays within the input. What it builds is stated by the method of CslParser.Parser proved equal to it and by the lemmas of ParserProps. It follows the corrected halves of the Findings and does not capture the Number primitive inferred for a Duration default (Findings, CslParser.cpp:730).
- ParserSpec.KeyTerminator: its own ensures states only that the position never moves back and stays within the input. What it builds is stated by the method of CslParser.Parser proved equal to it and by the lemmas of ParserProps. It follows the corrected halves of the Findings and does not capture the right grouping of binary + and - (Findings, CslParser.cpp:1120-1133); the stall of the list-argument loop on a token that starts no expression (Findings, CslParser.cpp:541-544).
- ParserSpec.ParseConflict: it follows the corrected halves of the Findings and does not capture the right grouping of binary + and - (Findings, CslParser.cpp:1120-1133); the stall of the list-argument loop on a token that starts no expression (Findings, CslParser.cpp:541-544).
- ParserSpec.ParseDependency: it follows the corrected halves of the Findings and does not capture the right grouping of binary + and - (Findings, CslParser.cpp:1120-1133); the stall of the list-argument loop on a token that starts no expression (Findings, CslParser.cpp:541-544).
- ParserSpec.ParseValidate: it follows the corrected halves of the Findings and does not capture the right grouping of binary + and - (Findings, CslParser.cpp:1120-1133); the stall of the list-argument loop on a token that starts no expression (Findings, CslParser.cpp:541-544).
- ParserSpec.ParseConstraints: it follows the corrected halves of the Findings and does not capture the right grouping of binary + and - (Findings, CslParser.cpp:1120-1133); the stall of the list-argument loop on a token that starts no expression (Findings, CslParser.cpp:541-544).
- ParserSpec.ParseWildcardKey: it follows the corrected halves of the Findings and does not capture the right grouping of binary + and - (Findings, CslParser.cpp:1120-1133); the stall of the list-argument loop on a token that starts no expression (Findings, CslParser.cpp:541-544); the Number primitive inferred for a Duration default (Findings, CslParser.cpp:730); the clash of non-numeric literals with number in a union (Findings, CslParser.cpp:824-827); the second mapping of b in a.b against the enclosing keys (Findings, CslParser.cpp:392-393).
- ParserSpec.ParseKeyDefinition: it follows the corrected halves of the Findings and does not capture the right grouping of binary + and - (Findings, CslParser.cpp:1120-1133); the stall of the list-argument loop on a token that starts no expression (Findings, CslParser.cpp:541-544); the Number primitive inferred for a Duration default (Findings, CslParser.cpp:730); the clash of non-numeric literals with number in a union (Findings, CslParser.cpp:824-827); the second mapping of b in a.b against the enclosing keys (Findings, CslParser.cpp:392-393).
- ParserSpec.ParseConfigSchema: it follows the corrected halves of the Findings and does not capture the right grouping of binary + and - (Findings, CslParser.cpp:1120-1133); the stall of the list-argument loop on a token that starts no expression (Findings, CslParser.cpp:541-544); the Number primitive inferred for a Duration default (Findings, CslParser.cpp:730); the clash of non-numeric literals with number in a union (Findings, CslParser.cpp:824-827); the second mapping of b in a.b against the enclosing keys (Findings, CslParser.cpp:392-393).
- ParserSpec.ParseConfigSchema: it evaluates parseTableType() before building the schema's region (CslParser.cpp:587), an order C++17 leaves unspecified. If the Region is built first, the region ends at the end of the token after the schema name, its '{', rather than at the token after the table.
- ParserSpec.ParseSchemas: it follows the corrected halves of the Findings and does not capture the right grouping of binary + and - (Findings, CslParser.cpp:1120-1133); the stall of the list-argument loop on a token that starts no expression (Findings, CslParser.cpp:541-544); the Number primitive inferred for a Duration default (Findings, CslParser.cpp:730); the clash of non-numeric literals with number in a union (Findings, CslParser.cpp:824-827); the second mapping of b in a.b against the enclosing keys (Findings, CslParser.cpp:392-393).
- ParserSpec.ParserMain: it follows the corrected halves of the Findings and does not capture the right grouping of binary + and - (Findings, CslParser.cpp:1120-1133); the stall of the list-argument loop on a token that starts no expression (Findings, CslParser.cpp:541-544); the Number primitive inferred for a Duration default (Findings, CslParser.cpp:730); the clash of non-numeric literals with number in a union (Findings, CslParser.cpp:824-827); the second mapping of b in a.b against the enclosing keys (Findings, CslParser.cpp:392-393).
- LexerSpec.Run: it follows the corrected halves of the Findings and does not capture the rejection of a carriage return followed by a line feed in multi-line strings (Findings, CslLexer.cpp:195-196); the split of a raw quoted identifier such as `` R`a(b)a` `` into the identifier `R` and the rest (Findings, CslLexer.cpp:510-529).
- LexerSpec.LexChunk: it follows the corrected halves of the Findings and does not capture the rejection of a carriage return followed by a line feed in multi-line strings (Findings, CslLexer.cpp:195-196); the split of a raw quoted identifier such as `` R`a(b)a` `` into the identifier `R` and the rest (Findings, CslLexer.cpp:510-529).
- LexerSpec.LineStep: it follows the corrected halves of the Findings and does not capture the rejection of a carriage return followed by a line feed in multi-line strings (Findings, CslLexer.cpp:195-196); the split of a raw quoted identifier such as `` R`a(b)a` `` into the identifier `R` and the rest (Findings, CslLexer.cpp:510-529).
- Lexer.Lexer.LexOne: it follows the corrected halves of the Findings and does not capture the rejection of a carriage return followed by a line feed in multi-line strings (Findings, CslLexer.cpp:195-196); the split of a raw quoted identifier such as `` R`a(b)a` `` into the identifier `R` and the rest (Findings, CslLexer.cpp:510-529).
- Lexer.Lexer.LexChunk: it follows the corrected halves of the Findings and does not capture the rejection of a carriage return followed by a line feed in multi-line strings (Findings, CslLexer.cpp:195-196); the split of a raw quoted identifier such as `` R`a(b)a` `` into the identifier `R` and the rest (Findings, CslLexer.cpp:510-529).
- Lexer.Lexer.LexLine: it follows the corrected halves of the Findings and does not capture the rejection of a carriage return followed by a line feed in multi-line strings (Findings, CslLexer.cpp:195-196); the split of a raw quoted identifier such as `` R`a(b)a` `` into the identifier `R` and the rest (Findings, CslLexer.cpp:510-529).
- Lexer.Lexer.LexLineBody: it follows the corrected halves of the Findings and does not capture the rejection of a carriage return followed by a line feed in multi-line strings (Findings, CslLexer.cpp:195-196); the split of a raw quoted identifier such as `` R`a(b)a` `` into the identifier `R` and the rest (Findings, CslLexer.cpp:510-529).
- Lexer.Lexer.Lex: it follows the corrected halves of the Findings and does not capture the rejection of a carriage return followed by a line feed in multi-line strings (Findings, CslLexer.cpp:195-196); the split of a raw quoted identifier such as `` R`a(b)a` `` into the identifier `R` and the rest (Findings, CslLexer.cpp:510-529).
- Lexer.LexerMain: it follows the corrected halves of the Findings and does not capture the rejection of a carriage return followed by a line feed in multi-line strings (Findings, CslLexer.cpp:195-196); the split of a raw quoted identifier such as `` R`a(b)a` `` into the identifier `R` and the rest (Findings, CslLexer.cpp:510-529).
- LexerSpec.ContentErrors: it follows the corrected halves of the Findings and does not capture the rejection of a carriage return followed by a line feed in multi-line strings (Findings, CslLexer.cpp:195-196).
- LexerSpec.StringStepReports: it follows the corrected halves of the Findings and does not capture the rejection of a carriage return followed by a line feed in multi-line strings (Findings, CslLexer.cpp:195-196).
- Lexer.Lexer.AcceptString: it follows the corrected halves of the Findings and does not capture the rejection of a carriage return followed by a line feed in multi-line strings (Findings, CslLexer.cpp:195-196).
- LexerSpec.Classify: it follows the corrected halves of the Findings and does not capture the split of a raw quoted identifier such as `` R`a(b)a` `` into the identifier `R` and the rest (Findings, CslLexer.cpp:510-529).
- ParserSemantics.MapTypes: it follows the corrected halves of the Findings and does not capture the second mapping of b in a.b against the enclosing keys (Findings, CslParser.cpp:392-393).
- ParserSemantics.MapType: it follows the corrected halves of the Findings and does not capture the second mapping of b in a.b against the enclosing keys (Findings, CslParser.cpp:392-393).
- ParserSemantics.MapKeys: it follows the corrected halves of the Findings and does not capture the second mapping of b in a.b against the enclosing keys (Findings, CslParser.cpp:392-393).
- ParserSemantics.CloseKey: it follows the corrected halves of the Findings and does not capture the second mapping of b in a.b against the enclosing keys (Findings, CslParser.cpp:392-393).
- ParserSemantics.CloseKeys: it follows the corrected halves of the Findings and does not capture the second mapping of b in a.b against the enclosing keys (Findings, CslParser.cpp:392-393).
- ParserSemantics.CloseTable: it follows the corrected halves of the Findings and does not capture the second mapping of b in a.b against the enclosing keys (Findings, CslParser.cpp:392-393).
- CslParser.Parser.ParseExpression: it follows the corrected halves of the Findings and does not capture the right grouping of binary + and - (Findings, CslParser.cpp:1120-1133); the stall of the list-argument loop on a token that starts no expression (Findings, CslParser.cpp:541-544).
- CslParser.Parser.ParseUnary: it follows the corrected halves of the Findings and does not capture the right grouping of binary + and - (Findings, CslParser.cpp:1120-1133); the stall of the list-argument loop on a token that starts no expression (Findings, CslParser.cpp:541-544).
- CslParser.Parser.ParsePrimary: it follows the corrected halves of the Findings and does not capture the right grouping of binary + and - (Findings, CslParser.cpp:1120-1133); the stall of the list-argument loop on a token that starts no expression (Findings, CslParser.cpp:541-544).
- CslParser.Parser.ParseDelimitedArgs: it follows the corrected halves of the Findings and does not capture the right grouping of binary + and - (Findings, CslParser.cpp:1120-1133); the stall of the list-argument loop on a token that starts no expression (Findings, CslParser.cpp:541-544).
- CslParser.Parser.ParseArg: it follows the corrected halves of the Findings and does not capture the right grouping of binary + and - (Findings, CslParser.cpp:1120-1133); the stall of the list-argument loop on a token that starts no expression (Findings, CslParser.cpp:541-544).
- CslParser.Parser.ParseArg: it evaluates parseExpression() before building the region of a single argument (CslParser.cpp:549), an order C++17 leaves unspecified. If the Region is built first, its end is the end of the token before the argument, so the region ends before it starts.
- CslParser.Parser.ParseAnnotation: it follows the corrected halves of the Findings and does not capture the right grouping of binary + and - (Findings, CslParser.cpp:1120-1133); the stall of the list-argument loop on a token that starts no expression (Findings, CslParser.cpp:541-544).
- CslParser.Parser.ParseDelimitedAnnotationArgs: it follows the corrected halves of the Findings and does not capture the right grouping of binary + and - (Findings, CslParser.cpp:1120-1133); the stall of the list-argument loop on a token that starts no expression (Findings, CslParser.cpp:541-544).
- CslParser.Parser.ParseAnnotations: it follows the corrected halves of the Findings and does not capture the right grouping of binary + and - (Findings, CslParser.cpp:1120-1133); the stall of the list-argument loop on a token that starts no expression (Findings, CslParser.cpp:541-544).
- CslParser.Parser.ParseConstraints: it follows the corrected halves of the Findings and does not capture the right grouping of binary + and - (Findings, CslParser.cpp:1120-1133); the stall of the list-argument loop on a token that starts no expression (Findings, CslParser.cpp:541-544).
- CslParser.Parser.ParseConflictConstraint: it follows the corrected halves of the Findings and does not capture the right grouping of binary + and - (Findings, CslParser.cpp:1120-1133); the stall of the list-argument loop on a token that starts no expression (Findings, CslParser.cpp:541-544).
- CslParser.Parser.ParseDependencyConstraint: it follows the corrected halves of the Findings and does not capture the right grouping of binary + and - (Findings, CslParser.cpp:1120-1133); the stall of the list-argument loop on a token that starts no expression (Findings, CslParser.cpp:541-544).
- CslParser.Parser.ParseValidateConstraint: it follows the corrected halves of the Findings and does not capture the right grouping of binary + and - (Findings, CslParser.cpp:1120-1133); the stall of the list-argument loop on a token that starts no expression (Findings, CslParser.cpp:541-544).
- CslParser.Parser.ParseType: it follows the corrected halves of the Findings and does not capture the right grouping of binary + and - (Findings, CslParser.cpp:1120-1133); the stall of the list-argument loop on a token that starts no expression (Findings, CslParser.cpp:541-544); the Number primitive inferred for a Duration default (Findings, CslParser.cpp:730); the clash of non-numeric literals with number in a union (Findings, CslParser.cpp:824-827); the second mapping of b in a.b against the enclosing keys (Findings, CslParser.cpp:392-393).
- CslParser.Parser.ParsePostfixType: it follows the corrected halves of the Findings and does not capture the right grouping of binary + and - (Findings, CslParser.cpp:1120-1133); the stall of the list-argument loop on a token that starts no expression (Findings, CslParser.cpp:541-544); the Number primitive inferred for a Duration default (Findings, CslParser.cpp:730); the clash of non-numeric literals with number in a union (Findings, CslParser.cpp:824-827); the second mapping of b in a.b against the enclosing keys (Findings, CslParser.cpp:392-393).
- CslParser.Parser.ParsePrimaryType: it follows the corrected halves of the Findings and does not capture the right grouping of binary + and - (Findings, CslParser.cpp:1120-1133); the stall of the list-argument loop on a token that starts no expression (Findings, CslParser.cpp:541-544); the Number primitive inferred for a Duration default (Findings, CslParser.cpp:730); the clash of non-numeric literals with number in a union (Findings, CslParser.cpp:824-827); the second mapping of b in a.b against the enclosing keys (Findings, CslParser.cpp:392-393).
- CslParser.Parser.PrimaryMember: it follows the corrected halves of the Findings and does not capture the right grouping of binary + and - (Findings, CslParser.cpp:1120-1133); the stall of the list-argument loop on a token that starts no expression (Findings, CslParser.cpp:541-544); the Number primitive inferred for a Duration default (Findings, CslParser.cpp:730); the clash of non-numeric literals with number in a union (Findings, CslParser.cpp:824-827); the second mapping of b in a.b against the enclosing keys (Findings, CslParser.cpp:392-393).
- CslParser.Parser.ParseTableType: it follows the corrected halves of the Findings and does not capture the right grouping of binary + and - (Findings, CslParser.cpp:1120-1133); the stall of the list-argument loop on a token that starts no expression (Findings, CslParser.cpp:541-544); the Number primitive inferred for a Duration default (Findings, CslParser.cpp:730); the clash of non-numeric literals with number in a union (Findings, CslParser.cpp:824-827); the second mapping of b in a.b against the enclosing keys (Findings, CslParser.cpp:392-393).
- CslParser.Parser.ParseWildcardKey: it follows the corrected halves of the Findings and does not capture the right grouping of binary + and - (Findings, CslParser.cpp:1120-1133); the stall of the list-argument loop on a token that starts no expression (Findings, CslParser.cpp:541-544); the Number primitive inferred for a Duration default (Findings, CslParser.cpp:730); the clash of non-numeric literals with number in a union (Findings, CslParser.cpp:824-827); the second mapping of b in a.b against the enclosing keys (Findings, CslParser.cpp:392-393).
- CslParser.Parser.ParseKeyDefinition: it follows the corrected halves of the Findings and does not capture the right grouping of binary + and - (Findings, CslParser.cpp:1120-1133); the stall of the list-argument loop on a token that starts no expression (Findings, CslParser.cpp:541-544); the Number primitive inferred for a Duration default (Findings, CslParser.cpp:730); the clash of non-numeric literals with number in a union (Findings, CslParser.cpp:824-827); the second mapping of b in a.b against the enclosing keys (Findings, CslParser.cpp:392-393).
- CslParser.Parser.ParseKeyBody: it follows the corrected halves of the Findings and does not capture the right grouping of binary + and - (Findings, CslParser.cpp:1120-1133); the stall of the list-argument loop on a token that starts no expression (Findings, CslParser.cpp:541-544); the Number primitive inferred for a Duration default (Findings, CslParser.cpp:730); the clash of non-numeric literals with number in a union (Findings, CslParser.cpp:824-827); the second mapping of b in a.b against the enclosing keys (Findings, CslParser.cpp:392-393).
- CslParser.Parser.ParseConfigSchema: it follows the corrected halves of the Findings and does not capture the right grouping of binary + and - (Findings, CslParser.cpp:1120-1133); the stall of the list-argument loop on a token that starts no expression (Findings, CslParser.cpp:541-544); the Number primitive inferred for a Duration default (Findings, CslParser.cpp:730); the clash of non-numeric literals with number in a union (Findings, CslParser.cpp:824-827); the second mapping of b in a.b against the enclosing keys (Findings, CslParser.cpp:392-393).
- CslParser.Parser.ParseConfigSchema: it evaluates parseTableType() before building the schema's region (CslParser.cpp:587), an order C++17 leaves unspecified. If the Region is built first, the region ends at the end of the token after the schema name, its '{', rather than at the token after the table.
- CslParser.Parser.ParseSchemas: it follows the corrected halves of the Findings and does not capture the right grouping of binary + and - (Findings, CslParser.cpp:1120-1133); the stall of the list-argument loop on a token that starts no expression (Findings, CslParser.cpp:541-544); the Number primitive inferred for a Duration default (Findings, CslParser.cpp:730); the clash of non-numeric literals with number in a union (Findings, CslParser.cpp:824-827); the second mapping of b in a.b against the enclosing keys (Findings, CslParser.cpp:392-393).
- CslParser.Parser.CloseTable: it follows the corrected halves of the Findings and does not capture the second mapping of b in a.b against the enclosing keys (Findings, CslParser.cpp:392-393).
- CslParser.Parser.MapIdentifiersInExpr: it follows the corrected halves of the Findings and does not capture the second mapping of b in a.b against the enclosing keys (Findings, CslParser.cpp:392-393).
- CslParser.Parser.MapEach: it follows the corrected halves of the Findings and does not capture the second mapping of b in a.b against the enclosing keys (Findings, CslParser.cpp:392-393).
- CslParser.Parser.MapIdentifiersInAnnotations: it follows the corrected halves of the Findings and does not capture the second mapping of b in a.b against the enclosing keys (Findings, CslParser.cpp:392-393).
- CslParser.Parser.MapIdentifiersInType: it follows the corrected halves of the Findings and does not capture the second mapping of b in a.b against the enclosing keys (Findings, CslParser.cpp:392-393).
- CslParser.Parser.MapIdentifiersInConstraints: it follows the corrected halves of the Findings and does not capture the second mapping of b in a.b against the enclosing keys (Findings, CslParser.cpp:392-393).
- CslParser.Parser.UnionMixes: it follows the corrected halves of the Findings and does not capture the clash of non-numeric literals with number in a union (Findings, CslParser.cpp:824-827).
- CslParser.CslParserMain: it follows the corrected halves of the Findings and does not capture the right grouping of binary + and - (Findings, CslParser.cpp:1120-1133); the stall of the list-argument loop on a token that starts no expression (Findings, CslParser.cpp:541-544); the Number primitive inferred for a Duration default (Findings, CslParser.cpp:730); the clash of non-numeric literals with number in a union (Findings, CslParser.cpp:824-827); the second mapping of b in a.b against the enclosing keys (Findings, CslParser.cpp:392-393).
- LangSvr.LanguageServer.HandleInitialize: it follows the corrected halves of the Findings and does not capture the reading of the multi-line token capability from the top level of the initialize parameters (Findings, CslLangSvr.cpp:463-467).
- LangSvr.LanguageServer.Configure: it follows the corrected halves of the Findings and does not capture the reading of the multi-line token capability from the top level of the initialize parameters (Findings, CslLangSvr.cpp:463-467).
- LangSvr.LanguageServer.ComputeAnswer: it follows the corrected halves of the Findings and does not capture the comment blocks folded from the token list without comments, which finds none (Findings, CslLangSvr.cpp:1338-1387).
- LangSvr.LanguageServer.HandleQuery: it follows the corrected halves of the Findings and does not capture the comment blocks folded from the token list without comments, which finds none (Findings, CslLangSvr.cpp:1338-1387).
- LangSvr.LanguageServer.Dispatch: it follows the corrected halves of the Findings and does not capture the reading of the multi-line token capability from the top level of the initialize parameters (Findings, CslLangSvr.cpp:463-467); the comment blocks folded from the token list without comments, which finds none (Findings, CslLangSvr.cpp:1338-1387).
- LangSvr.LanguageServer.AnswerRequest: it follows the corrected halves of the Findings and does not capture the comment blocks folded from the token list without comments, which finds none (Findings, CslLangSvr.cpp:1338-1387).
- LangSvr.LanguageServer.Route: it follows the corrected halves of the Findings and does not capture the reading of the multi-line token capability from the top level of the initialize parameters (Findings, CslLangSvr.cpp:463-467); the error code stored under the key "error" (Findings, CslLangSvr.cpp:393-413); the comment blocks folded from the token list without comments, which finds none (Findings, CslLangSvr.cpp:1338-1387).
- LangSvr.LanguageServer.HandleRequest: it follows the corrected halves of the Findings and does not capture the reading of the multi-line token capability from the top level of the initialize parameters (Findings, CslLangSvr.cpp:463-467); the error code stored under the key "error" (Findings, CslLangSvr.cpp:393-413); the comment blocks folded from the token list without comments, which finds none (Findings, CslLangSvr.cpp:1338-1387).
- LangSvrProps.InitializeOnlyOnce: it follows the corrected halves of the Findings and does not capture the reading of the multi-line token capability from the top level of the initialize parameters (Findings, CslLangSvr.cpp:463-467); the error code stored under the key "error" (Findings, CslLangSvr.cpp:393-413).
- LangSvrProps.ConfigureReply: it follows the corrected halves of the Findings and does not capture the reading of the multi-line token capability from the top level of the initialize parameters (Findings, CslLangSvr.cpp:463-467).
- LangSvrProps.FirstInitialize: it follows the corrected halves of the Findings and does not capture the reading of the multi-line token capability from the top level of the initialize parameters (Findings, CslLangSvr.cpp:463-467).
- LangSvrProps.NothingBeforeInitialize: it follows the corrected halves of the Findings and does not capture the error code stored under the key "error" (Findings, CslLangSvr.cpp:393-413).
- LangSvrProps.NothingBeforeInitialized: it follows the corrected halves of the Findings and does not capture the error code stored under the key "error" (Findings, CslLangSvr.cpp:393-413).
- LangSvrProps.InitializedOnce: it follows the corrected halves of the Findings and does not capture the error code stored under the key "error" (Findings, CslLangSvr.cpp:393-413).
- LangSvrProps.OnlyExitAfterShutdown: it follows the corrected halves of the Findings and does not capture the error code stored under the key "error" (Findings, CslLangSvr.cpp:393-413).
- LangSvrProps.UnknownMethod: it follows the corrected halves of the Findings and does not capture the error code stored under the key "error" (Findings, CslLangSvr.cpp:393-413).
- LangSvrProps.QueryNeedsDocument: it follows the corrected halves of the Findings and does not capture the error code stored under the key "error" (Findings, CslLangSvr.cpp:393-413).
- LangSvrProps.QueryAnswers: it follows the corrected halves of the Findings and does not capture the comment blocks folded from the token list without comments, which finds none (Findings, CslLangSvr.cpp:1338-1387).
- LangSvrProps.OpenThenFold: it follows the corrected halves of the Findings and does not capture the comment blocks folded from the token list without comments, which finds none (Findings, CslLangSvr.cpp:1338-1387).

## Findings

| source | as written | input that shows it | evidently intended | confidence | as-written member | corrected member |
|---|---|---|---|---|---|---|
| impl/core/parser/CslParser.cpp:1120-1133 | the associativity map is built from an initializer list in which "+" and "-" appear twice; the first entries, the unary ones with value 1, are kept | `x - y + z` parses as `x - (y + z)` | binary "+" and "-" are left-associative, so `x - y + z` is `(x - y) + z` | not executed | ParserProps.MinusChainGroupsRightAsWritten | ParserProps.SamePrecedenceGroupsLeft |
| impl/core/parser/CslParser.cpp:541-544 | the list-argument loop calls parseExpression, which does not advance on a token that starts no expression, such as `;` inside `[ ]` | `subset(a, [;])` reports the same token on every pass and never leaves it | the stalling token is reported once and skipped | not executed | ParserProps.ListStallsAsWritten | ParserProps.ListElemsSkipsStall |
| impl/core/parser/CslParser.cpp:730 | a `name = literal` key whose literal is a Duration is given the Number primitive | `timeout = 1h;` then reports its own default as not matching the declared type | a Duration literal infers the Duration primitive | not executed | ParserProps.DurationInferredAsWritten | ParserProps.InferAdmits |
| impl/core/parser/CslParser.cpp:824-827 | every literal member of a union that is not a string counts as a number literal | `number` together with the literal `true` is reported as a union that mixes a type with its own literals | only numeric literals clash with `number` | not executed | ParserProps.NumberOrTrueMixes | ParserProps.MixesLiteralIff |
| impl/core/parser/CslParser.cpp:392-393 | after `b` in `a.b` is mapped to the key of a's table, both sides are mapped again against the enclosing keys | for `server.host` with an enclosing key `host`, the token `host` is mapped to the enclosing key | `b` stays mapped to the key inside a's table | not executed | ParserProps.ServerHostExample | ParserProps.PropertyMapsToInnerKey |
| impl/core/lexer/CslLexer.cpp:195-196 | the check after a carriage return tests the carriage return itself for a line feed | a multi-line basic string holding the bytes 0x0D 0x0A is rejected | a carriage return followed by a line feed is accepted in multi-line strings | not executed | LexerContent.CrLfInMultiLineString | LexerContent.IsStringContentValid |
| impl/core/langsvr/CslLangSvr.cpp:463-467 | the three hasKey guards for the multi-line token capability look at the top level of the initialize parameters | a client sending capabilities.textDocument.semanticTokens.multilineTokenSupport = true is read as not supporting multi-line tokens | each level of the capability path is checked before the flag is read | not executed | LangSvrRpc.MultilineClientMisread | LangSvrRpc.MultilineSupportIff |
| impl/core/langsvr/CslLangSvr.cpp:393-413 | the error object of an error reply stores its code under the key "error" | any unknown method gets an error object without a "code" member | section 5.1 of JSON-RPC 2.0: the code is stored under "code" | not executed | LangSvrRpc.AsWrittenErrorHasNoCode | LangSvrRpc.ErrorObjectConforms |
| impl/core/langsvr/CslLangSvr.cpp:1338-1387 | both folding loops walk the token list lexed without comments | two comment lines in a row get no comment range | comment blocks are folded from the token list that keeps comments | not executed | LangSvrProps.FoldingAsWrittenLosesComments | LangSvrFolding.TwoCommentLinesFold |
| impl/core/lexer/CslLexer.cpp:510-529 | ParseIdentifier tries the bare-identifier pattern first and keeps its match, so a raw quoted identifier that starts with `R` never reaches the quoted pattern | `` R`a(b)a` `` is lexed as the identifier `R` followed by the rest | the raw quoted form `` R`delimiter(content)delimiter` `` is one identifier | not executed | LexerRecognizers.RawQuotedIdentifierIsSplit | LexerRecognizers.ParseIdentifier |
