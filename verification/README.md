# iperf3 core: a verification model

This project models the parts of iperf3 that carry state from one step to the next, and proves what
they promise. Each module follows one part of the program.

| part of iperf3 | modules |
|---|---|
| JSON: parser, printer, string decoding, sibling lists, copy, comparison, minifying (`cjson.c`) | `Bytes`, `Doubles`, `Json`, `TextFacts`, `StringLiteral`, `StringBounds`, `NumberLiteral`, `JsonGrammar`, `InputEnd`, `Completion`, `ParseBuffer`, `TreeParser`, `PrintBuffer`, `TreePrinter`, `RoundTrip`, `PrintThenParse`, `Rfc8259`, `RfcPrinting`, `RfcNumbers`, `RfcParsing`, `RfcAcceptance`, `RfcErrors`, `Unicode`, `Minify`, `MinifyPieces`, `Items`, `Trees`, `Building`, `Compare` |
| JSON bodies on the control connection (`iperf_api.c`) | `NetworkOrder`, `JsonFrame`, `ControlBodies` |
| timers (`timer.c`, `iperf_time.c`) and the timers of a test | `IperfTime`, `TimerQueue`, `TimerWalk`, `TestTimers` |
| the control protocol (`iperf_server_api.c`, `iperf_client_api.c`, exchanges in `iperf_api.c`) | `Streams`, `StreamList`, `Session`, `SessionSafety`, `SessionRuns`, `SessionCounts`, `Strangers`, `LateOmit`, `SessionBytes` |
| counters of a stream and of the test (`iperf_udp.c`, `iperf_tcp.c`, `iperf_api.c`) | `UdpLoss`, `StreamStats`, `TestStats`, `TestRuns` |
| rate control (`iperf_api.c`) | `Pacing`, `TestStats`, `RateWindow` |

How the model is built:

- A tree of cJSON items is a heap of `Item` objects linked by `next`, `prev` and `child`. The ghost
  fields `kids`, `nodes` and `model` say which sequence of children, which set of nodes and which
  JSON value an item stands for, and `Trees.Tree` ties them to the links. The parser builds such a
  tree and the printer walks it; both are proved against pure functions, `JsonGrammar.ParseValue`
  and `Json.Text`, and `RoundTrip` relates these two functions to each other. `Rfc8259` has the grammar
  of RFC 8259 as derivation trees with what they yield and mean, without any of these functions; the
  other modules of that name hold printer and parser against it.
- Numbers are 64-bit integers; where they come from counters, `Doubles` says what the double between
  text and integer makes of them. Strings are C strings of bytes. The formats are those of RFC 8259,
  section 7 of RFC 8259 for strings, section 3 of RFC 3629 and section 2 of RFC 2781.
- The two growth paths of the print buffer, with and without `realloc`, are both modelled.
- The timer lists are doubly and singly linked heap lists. `TestTimers` runs them with the callbacks
  of a test, which reset other timers in the middle of `tmr_run`, and `TimerWalk` works out from the
  list of deadlines alone which timers that leaves out.
- The control protocol is a step relation over client, server, two FIFO channels and the queue of
  the listening socket. One event is one handler up to the next read that blocks. Strangers connect
  at any time. Message bodies are the JSON values of the two programs, with the server's limit on the
  parameters. The byte counters of both ends are part of the state. `SessionBytes` has the same session
  with channels of bytes.
- Sends, receives, stats callbacks and the omit reset are atomic steps on a `Stream`, and results of
  reads, writes, sleeps and clocks come from outside as parameters or arbitrary choices. Time and
  rates are reals, with the truncations of the source written out.
- `struct iperf_test` and `struct iperf_stream` appear in several classes, each with the fields its part
  of the program uses: `TestTimers.Test`, `StreamList.Test` and `TestStats.Test`; `StreamList.Node` and
  `StreamStats.Stream`.
- The configuration is that of `iperf_config.h`: `nanosleep` is there and `clock_nanosleep` is not.

Where the code does not do what one would expect, the exact condition is proved:

- A session can end early in two ways and no other: the parameters are over the server's limit of
  8192 bytes, which the client does not check, or a second client connects while streams are being
  created and the first one asked for a type of service (`SessionRuns.SessionCanBreak`).
- The server's omit timer may fire when the results are out, and then clears counts that the client
  has been told; that can happen exactly in sessions with an omit period (`LateOmit.OmitCanSpoil`).
- Byte counts go through doubles: beyond 2^53 the two ends agree just when both counts are
  doubles (`SessionSafety.Agreement`).
- The callback for the end of the omit period moves the timer that `tmr_run` has saved to go on with.
  What is due behind it may be left for the next run (`TestTimers.Test.ReportLeftOut`,
  `TestTimers.Test.TestEndLeftOut`, `TimerWalk.CaughtExactly`).
- When an input without a NUL ends in a comma within an object, the parser looks at the byte behind
  it (`InputEnd.LooksExactly`, and by the input alone `Completion.LooksWhenCompleted`).
- Minifying formatted text is not always the unformatted text (`Minify.MinifiedPrint`).
- The parser takes more than RFC 8259 allows: control characters as blanks and inside of strings,
  numerals with leading zeros or digits on one side of the point only, and `\u` with bad digits, as
  the character 0 (`RfcAcceptance.AcceptedExactly`).
- A duplicated UDP datagram hides a loss exactly when something is missing (`UdpLoss.StaysRight`).
- UDP counts of the intervals after the omit reset include what was counted between the last
  interval and the reset, unlike the byte counts (`StreamStats.Stream.CountsSinceReset`).
- The options allow averaging windows longer than the ring they are kept in, and one of 0, which
  leaves no slot at all (`RateWindow.WindowFits`). `RateWindow.RateLimit` is about windows that fit.
- The comment at `cJSON_PrintPreallocated` asks for five spare bytes; two are enough and needed
  (`TreePrinter.PrintPreallocated`).

`dafny verify dfyconfig.toml` checks the whole project.

## Model

| member | source | states |
|---|---|---|
| `RoundTrip.RoundTrips` | Source/iperf3/cjson.c:1106-1180 | the text of a value in either print mode, with or without a required NUL, parses back to the value exactly when its nesting is within the parser's limit; for every value whose numbers are ones that a double gives |
| `RoundTrip.ValueParses` | Source/iperf3/cjson.c:1323-1375 | a printed value standing anywhere in a larger input parses to the value, and the offset ends right behind its text |
| `RoundTrip.ItemsParse` | Source/iperf3/cjson.c:1452-1548 | the elements of a printed array, behind any blanks, parse back in order up to the closing bracket |
| `RoundTrip.MembersParse` | Source/iperf3/cjson.c:1612-1722 | the members of a printed object, with their indentation and line ends, parse back in order up to the closing brace |
| `RoundTrip.StringParses` | Source/iperf3/cjson.c:784-888 | a printed string literal decodes to the string, whatever bytes it has |
| `RoundTrip.NumberParses` | Source/iperf3/cjson.c:316-380 | a printed number converts back to itself, with strtod read as exact; a double between the two changes nothing for the numbers of RoundTrips |
| `Doubles.UpTo53Bits` | Source/iperf3/cjson.c:2440-2462 | an integer of magnitude 2^53 or less comes through a JSON number as it is |
| `Doubles.NearestIsDouble` | Source/iperf3/cjson.c:2440-2462 | what the conversion to a double gives, rounding to the nearest with ties to even, is itself converted without loss |
| `Doubles.CarriedOnce` | Source/iperf3/cjson.c:2440-2462 | so an integer that has been through one JSON number, saturated or not, goes through the next as it is |
| `Doubles.FirstLost` | Source/iperf3/cjson.c:2440-2462 | 2^53 + 1 arrives as 2^53 |
| `Doubles.NearestIsNearest` | Source/iperf3/cjson.c:2440-2462 | of all integers that are 53 bits times a power of two none is nearer to the given one, and of two as near it is the even multiple |
| `Doubles.NearestIsOne` | Source/iperf3/cjson.c:2440-2462 | and it is such an integer itself |
| `Doubles.CarriedInOrder` | Source/iperf3/cjson.c:2440-2462 | what becomes of integers keeps their order |
| `Doubles.CarriedEnds` | Source/iperf3/cjson.c:2440-2462 | the largest and the smallest integer of 64 bits come through as they are |
| `RoundTrip.ParsedNesting` | Source/iperf3/cjson.c:1452-1460 | the parser never returns a value nested deeper than its limit, from any depth |
| `RfcPrinting.PrintedIsRfc` | Source/iperf3/cjson.c:1378-1836 | the text of every value, in either print mode and at any depth, is derived by the grammar of RFC 8259, with the blanks that the print mode is to have and nowhere else, strings with the fewest escapes and numerals without needless digits, and it means the value |
| `RfcPrinting.CharsLaid` | Source/iperf3/cjson.c:913-1032 | a string is spelled with each character as it is where the grammar allows that, else with its short escape, else with its code in lower case, and means the string |
| `RfcPrinting.NumberLaid` | Source/iperf3/cjson.c:556-620 | an integer is spelled as an optional minus and decimal digits that do not start with 0 unless they are just 0, and means the integer |
| `RfcParsing.ValueAccepted` | Source/iperf3/cjson.c:1323-1375 | at any place and depth the parser takes a value that the grammar derives, with numerals of 63 characters at most, for what it means up to its end, and refuses it if and only if it is nested deeper than the limit allows |
| `RfcParsing.TextAccepted` | Source/iperf3/cjson.c:1106-1180 | the same for whole inputs: a byte order mark and blanks may stand in front; where a NUL is required, the input is taken if and only if just blanks and a NUL at the very end stand behind |
| `RfcParsing.StringAccepted` | Source/iperf3/cjson.c:784-910 | a literal of the grammar, with escapes of all kinds, is read as the bytes it means up to a NUL |
| `RfcParsing.NulRequired` | Source/iperf3/cjson.c:1140-1150 | only blanks up to a NUL that is the last byte satisfy a parser that requires the NUL |
| `RfcNumbers.NumeralAccepted` | Source/iperf3/cjson.c:316-380 | a numeral, with sign, fraction and exponent, is read as the integer part of the number it stands for, or the nearest integer of 64 bits |
| `RfcNumbers.NumeralRead` | Source/iperf3/cjson.c:316-380 | strtod takes all of a numeral and gives its sign, its digits and its power of ten |
| `Rfc8259.RfcIsLoose` | Source/iperf3/cjson.c:1323-1375 | what the RFC derives, the looser grammar of the parser derives |
| `RfcAcceptance.AcceptedExactly` | Source/iperf3/cjson.c:1106-1180 | with the NUL required, the inputs that are taken for a value are exactly those that the looser grammar derives with that meaning, within the limits of nesting and numerals |
| `RfcAcceptance.TextDerived` | Source/iperf3/cjson.c:1106-1180 | any accepted input, with or without the NUL required, is an optional mark, blanks, a derived value that means the result, and what stands behind |
| `RfcAcceptance.ValueDerived` | Source/iperf3/cjson.c:1323-1375 | any value accepted anywhere is derived by the looser grammar and is what it means |
| `RfcErrors.FaultInside` | Source/iperf3/cjson.c:1323-1375 | a fault of a value is reported at the same byte however many arrays and objects, with anything complete in them, stand around it |
| `RfcErrors.Reported` | Source/iperf3/cjson.c:1153-1175 | the fault of a whole input is reported at its byte, or at the last byte if it is behind the end |
| `RfcErrors.NoValue` | Source/iperf3/cjson.c:1323-1375 | a byte that starts no value, a bracket that is too deep and a minus without a number are reported at their place, a literal that is not closed one behind its quote |
| `RfcErrors.NoComma` | Source/iperf3/cjson.c:1485-1535 | a byte behind an element that is neither comma nor bracket is reported at its place |
| `RfcErrors.NoKey` | Source/iperf3/cjson.c:1643-1690 | a byte that is no quote where a key must stand is reported one behind its place |
| `RfcErrors.NoColon` | Source/iperf3/cjson.c:1683-1690 | a byte that is no colon behind a key is reported at its place |
| `RfcErrors.BadEscape` | Source/iperf3/cjson.c:831-888 | an escape that is refused is reported at its backslash |
| `RfcErrors.NoEnd` | Source/iperf3/cjson.c:1140-1150 | where the NUL is required, the first byte behind the value that is no blank is reported, or the last byte |
| `PrintThenParse.Copy` | Source/iperf3/cjson.c:1263-1271 | printing a tree of items and parsing the text gives a tree of new items that stands for the same value |
| `TreePrinter.PrintValue` | Source/iperf3/cjson.c:1378-1449 | from any buffer state, print_value appends exactly the text of the tree with a NUL behind it, and succeeds exactly when offset + length + 2 is within the limit of the buffer |
| `TreePrinter.PrintArray` | Source/iperf3/cjson.c:1550-1609 | the same for the walk along the children of an array; the depth comes back on success |
| `TreePrinter.PrintItems` | Source/iperf3/cjson.c:1571-1594 | the loop over the elements appends their texts with separators between them and none behind the last |
| `TreePrinter.PrintObject` | Source/iperf3/cjson.c:1725-1836 | the same for an object, with the indentation taken from the depth |
| `TreePrinter.PrintMembers` | Source/iperf3/cjson.c:1749-1813 | the loop over the members appends key, separator, value and ending of each |
| `TreePrinter.PrintMember` | Source/iperf3/cjson.c:1751-1811 | one member: key, separator, value, and a comma exactly when another member follows |
| `TreePrinter.PrintPreallocated` | Source/iperf3/cjson.c:1303-1320 | printing into a caller's buffer succeeds exactly when the buffer has two bytes more than the text, so five spare bytes always do |
| `TreePrinter.PrintBuffered` | Source/iperf3/cjson.c:1273-1301 | the first guess of the size and the way of growing make no difference to the text; only a first guess of 0 without realloc is not covered |
| `TreePrinter.Print` | Source/iperf3/cjson.c:1198-1261 | the returned array is exactly the text and its NUL |
| `PrintBuffer.PrintBuffer.Ensure` | Source/iperf3/cjson.c:450-530 | growing by realloc or by copying offset + 1 bytes keeps what lies before offset, doubles the size that is needed or takes the largest one, and fails exactly when the limit does not allow the room |
| `PrintBuffer.PrintBuffer.UpdateOffset` | Source/iperf3/cjson.c:533-546 | offset moves to the NUL behind what was printed |
| `PrintBuffer.PrintBuffer.PrintStringPtr` | Source/iperf3/cjson.c:913-1032 | the counting pass asks for the exact room of the escaped text that the second pass writes; a NULL string prints as the empty one |
| `PrintBuffer.PrintBuffer.CountEscapes` | Source/iperf3/cjson.c:935-962 | the counted extra bytes are the growth of the text by escaping |
| `PrintBuffer.PrintBuffer.PrintNumber` | Source/iperf3/cjson.c:556-620 | appends the numeral of RfcPrinting.NumberLaid and its NUL, and fails exactly when there is no room |
| `TextFacts.NumberTextBound` | Source/iperf3/cjson.c:556-575 | no 64-bit integer needs more than 20 characters, so the local buffer of print_number never overflows |
| `TextFacts.TextNulFree` | Source/iperf3/cjson.c:533-546 | no text of a value contains a NUL, which is what lets update_offset find its end with strlen |
| `TreeParser.ParseValue` | Source/iperf3/cjson.c:1323-1375 | on success the item is the root of a well-linked tree of new items that stands for the value the grammar gives, depth is restored and offset is where the value ends; on failure offset is where the grammar says the parser gives up |
| `TreeParser.ParseArray` | Source/iperf3/cjson.c:1452-1548 | the same for arrays, with the nesting limit, the step back and the empty array as they are in the source |
| `TreeParser.ParseItems` | Source/iperf3/cjson.c:1485-1524 | the loop that links a new item behind the last one before it parses into it keeps one chain of disjoint trees that stands for the elements read so far |
| `TreeParser.ParseObject` | Source/iperf3/cjson.c:1612-1722 | the same for objects |
| `TreeParser.ParseMembers` | Source/iperf3/cjson.c:1643-1700 | the loop over the members: each new item takes its key as its name and its value as its own |
| `TreeParser.ParseMember` | Source/iperf3/cjson.c:1665-1696 | the key is read as a string and swapped into the name before the value is parsed into the same item |
| `TreeParser.ParseWithLengthOpts` | Source/iperf3/cjson.c:1106-1180 | the whole parser: a tree for exactly the inputs the grammar accepts, otherwise null and the reported error position |
| `JsonGrammar.ParseValue` | Source/iperf3/cjson.c:1323-1375 | a parsed value advances the offset and never passes the end of the input |
| `InputEnd.LooksExactly` | Source/iperf3/cjson.c:1612-1722 | the parser looks at the byte behind its input exactly when it comes to a key with the input used up, and that needs a comma as the last byte; so never with a NUL or a blank there, as in cJSON_Parse |
| `Completion.LooksWhenCompleted` | Source/iperf3/cjson.c:1612-1722 | that is so for just those inputs that end in a comma and are one whole value with a member and some closing brackets put behind them |
| `Completion.ValueSame` | Source/iperf3/cjson.c:1323-1375 | what has been parsed of an input stays the same when more stands behind it, and what is parsed of the longer input without reaching that is parsed of the shorter one |
| `InputEnd.KeyBehind` | Source/iperf3/cjson.c:1670-1672 | behind the comma between two members the key is looked for at the end of the input exactly when that comma is the last byte |
| `InputEnd.StringBehind` | Source/iperf3/cjson.c:784-800 | parse_string gives up one byte behind the input exactly when it is called at its end |
| `InputEnd.ObjectWithComma` | Source/iperf3/cjson.c:1670-1680 | an input that ends behind the comma of an object, on which it does look there |
| `InputEnd.ArrayWithComma` | Source/iperf3/cjson.c:1495-1510 | an array that ends that way does not make it look there |
| `ParseBuffer.ParseBuffer.ParseString` | Source/iperf3/cjson.c:784-910 | the two passes over a literal give the decoded string, and the offset behind the closing quote or at the refused escape |
| `ParseBuffer.ParseBuffer.DecodeInto` | Source/iperf3/cjson.c:831-888 | the second pass writes the decoding of the literal and stays inside the room the first pass asked for |
| `ParseBuffer.ParseBuffer.FindClosing` | Source/iperf3/cjson.c:797-829 | the first pass finds the closing quote and counts what the literal can need at most |
| `ParseBuffer.StoreUtf8` | Source/iperf3/cjson.c:724-775 | the bytes filled in from the last one back are the UTF-8 encoding of the code point, as in section 3 of RFC 3629 |
| `ParseBuffer.ParseBuffer.Utf16Literal` | Source/iperf3/cjson.c:663-722 | one escape or a surrogate pair gives its code point, as in section 2 of RFC 2781; anything else is refused |
| `ParseBuffer.ParseBuffer.ParseHex4` | Source/iperf3/cjson.c:626-660 | four hexadecimal digits give the number of Unicode.Hex4Spelled, anything else 0 |
| `Unicode.Hex4Spelled` | Source/iperf3/cjson.c:626-660 | four characters give the unit that they spell in the two alphabets 0123456789ABCDEF and 0123456789abcdef, each in either, and no others give it |
| `Unicode.PrintedInLowerCase` | Source/iperf3/cjson.c:1019-1024 | the digits that are printed are those of the second alphabet |
| `ParseBuffer.ParseBuffer.ParseNumber` | Source/iperf3/cjson.c:316-380 | the characters collected (63 at most) and the part of them that strtod takes decide number and offset |
| `StringBounds.DecodeFits` | Source/iperf3/cjson.c:797-888 | for every literal, well-formed or not, in step with the first pass or not, the bytes of the second pass fit the size computed by the first |
| `StringBounds.StaysInside` | Source/iperf3/cjson.c:831-888 | the second pass reads nothing behind the closing quote: it does the same on the input cut off right behind it |
| `StringBounds.TokenFits` | Source/iperf3/cjson.c:840-882 | one step of the second pass writes no more than its share and leaves the passes in step or one apart |
| `StringBounds.Reach` | Source/iperf3/cjson.c:797-821 | from any position the first pass stops at a later one or jumps over it, and has counted at least half of the distance |
| `StringBounds.PassesFallOutOfStep` | Source/iperf3/cjson.c:663-690 | a literal with bad hexadecimal digits on which the second pass stops one past the closing quote and still fits |
| `Unicode.EscapedLiteral` | Source/iperf3/cjson.c:831-888 | every sequence of scalar values written as escapes, in upper or lower case hexadecimal, decodes to the concatenation of their UTF-8 encodings, and these decode back to the sequence |
| `Unicode.Utf8RoundTrip` | Source/iperf3/cjson.c:724-775 | a strict decoder after section 4 of RFC 3629 takes the encodings of scalar values back to them |
| `Unicode.SurrogateToken` | Source/iperf3/cjson.c:663-722 | an escape with a surrogate is accepted exactly when it is a high one with a low one right behind it |
| `Unicode.UnpairedRefused` | Source/iperf3/cjson.c:663-722 | a surrogate that is not paired, at any place the second pass comes to, makes the whole literal refused |
| `Unicode.RefusedAt` | Source/iperf3/cjson.c:831-888 | a refused token at any place the second pass comes to is where decoding stops |
| `Minify.MinifiedPrint` | Source/iperf3/cjson.c:2849-2895 | minifying the formatted print gives the unformatted print exactly when no string or key ends in a backslash, or the only such string is the last text of the value |
| `Minify.ValueBecomes` | Source/iperf3/cjson.c:2849-2895 | what minifying makes of a value's text followed by any other text, for all three kinds of value |
| `Minify.MinifyCanFail` | Source/iperf3/cjson.c:2827-2847 | a string that ends in a backslash for which the two prints do differ |
| `MinifyPieces.MinifiedPieces` | Source/iperf3/cjson.c:2849-2895 | of a text made of blanks, comments, single slashes, strings and other bytes just the strings and the other bytes are left, in their order; also when it ends inside a comment or a string |
| `MinifyPieces.SameTokens` | Source/iperf3/cjson.c:2849-2895 | two texts that differ in the blanks and comments between their tokens come to the same |
| `MinifyPieces.EveryText` | Source/iperf3/cjson.c:2849-2895 | every text is made of such pieces |
| `Minify.MinifyInPlace` | Source/iperf3/cjson.c:2849-2895 | in place, with the write index never past the read index, the array ends up with the pure minified text and its NUL |
| `Minify.MinifyString` | Source/iperf3/cjson.c:2827-2847 | the loop over a string copies it up to the quote that this loop takes for the closing one |
| `Minify.SkipMultilineComment` | Source/iperf3/cjson.c:2813-2825 | a comment is skipped up to its end mark or the end of the text |
| `Minify.MinifyPrinted` | Source/iperf3/cjson.c:2849-2895 | for such values the array with the formatted print is turned into the unformatted print |
| `Items.AddItemToArray` | Source/iperf3/cjson.c:1967-1998 | appends to the sequence of children and keeps all links, in constant time through the prev of the head; refused exactly for null and for the list itself |
| `Items.GetArrayItem` | Source/iperf3/cjson.c:1862-1879 | the item at the index, or null past the end |
| `Items.DetachItemViaPointer` | Source/iperf3/cjson.c:2198-2232 | removes the item from the sequence, keeps the links of the rest and clears those of the item |
| `Items.DetachItemFromArray` | Source/iperf3/cjson.c:2234-2242 | removes at the index, and changes nothing for any other index |
| `Items.InsertItemInArray` | Source/iperf3/cjson.c:2274-2301 | inserts at the smaller of index and length; a negative index is refused, and so are null and the list itself past the end |
| `Items.ReplaceItemViaPointer` | Source/iperf3/cjson.c:2303-2350 | updates the sequence at the item's position and keeps all links |
| `Building.AddToArray` | Source/iperf3/cjson.c:1967-2004 | a whole tree is added to an array: the result is again a well-linked tree, which stands for the array with the value appended |
| `Building.AddToObject` | Source/iperf3/cjson.c:2022-2062 | the same for an object and a key |
| `Trees.Duplicate` | Source/iperf3/cjson.c:2717-2787 | a recursive copy shares no node with its source, is a well-linked tree and stands for the same value |
| `Building.DuplicateComparesEqual` | Source/iperf3/cjson.c:2717-2787 | the copy that cJSON_Duplicate makes compares equal to its source, either way round, when the source has distinct keys and numbers below 2^52 |
| `Compare.CompareMeaning` | Source/iperf3/cjson.c:2997-3120 | on values with distinct keys and numbers below 2^52 the comparison holds exactly when the two mean the same with objects read as maps, for both treatments of case |
| `Compare.CompareIsEquivalence` | Source/iperf3/cjson.c:2997-3120 | on these values it is reflexive, symmetric and transitive |
| `Compare.IrregularValues` | Source/iperf3/cjson.c:549-553 | neither condition can go: 2^52 equals its neighbour, and an object with a repeated key does not equal itself |
| `Compare.LowerMeans` | Source/iperf3/cjson.c:141-163 | two bytes of keys are the same, whatever the case, exactly when they are equal or the two forms of one of the 26 letters |
| `Compare.ToldApart` | Source/iperf3/cjson.c:549-553 | different integers below 2^52 are told apart, from there on neighbours are not; order and sign make no difference |
| `Compare.LookupMeaning` | Source/iperf3/cjson.c:1891-1921 | looking a key up among the members is looking it up in the map they mean |
| `JsonFrame.ReadWritten` | Source/iperf3/iperf_api.c:2834-2920 | what JSON_write sends, followed by anything, is read back as the value with just its bytes consumed, exactly when the text is within the reader's limit and shorter than 2^31 bytes |
| `JsonFrame.TooLong` | Source/iperf3/iperf_api.c:2862-2885 | a body that is over either limit is refused, whatever follows |
| `JsonFrame.Layout` | Source/iperf3/iperf_api.c:2834-2856 | a message is its length in four bytes, the most significant one first, and the text |
| `JsonFrame.Truncated` | Source/iperf3/iperf_api.c:2862-2920 | of a message that breaks off anywhere nothing is read |
| `JsonFrame.Channel.JsonWrite` | Source/iperf3/iperf_api.c:2834-2856 | the bytes added to the connection are the length in network order and the unformatted text; from 2^31 bytes on it reports failure, though they are all on their way |
| `JsonFrame.Channel.JsonRead` | Source/iperf3/iperf_api.c:2862-2920 | a tree of new items for the body, or null for a short stream, a length of 0, one over the limit, or a body that is not JSON; and what is left of the stream in each case |
| `NetworkOrder.RoundTrips` | Source/iperf3/iperf_udp.c:96-117 | a number comes back from network order exactly while it fits the width |
| `NetworkOrder.PlaceValues` | Source/iperf3/iperf_udp.c:96-117 | the byte in front of k others is the number divided by 256^k, modulo 256 |
| `NetworkOrder.BytesRoundTrip` | Source/iperf3/iperf_udp.c:96-117 | bytes are read as the number whose bytes they are |
| `IperfTime.AddIsExact` | Source/iperf3/iperf_time.c:73-80 | adding microseconds gives the normalised sum exactly when the seconds do not wrap around 32 bits |
| `IperfTime.CompareIsOrder` | Source/iperf3/iperf_time.c:102-121 | the comparison is the order of the times in microseconds |
| `IperfTime.DiffIsDistance` | Source/iperf3/iperf_time.c:124-155 | the difference is the distance in microseconds, and the return value tells which time is the later one |
| `TimerQueue.TimerQueue.ListAdd` | Source/iperf3/timer.c:61-97 | the timer goes behind every one that is not later, which keeps the list sorted and first come first served; all links hold |
| `TimerQueue.TimerQueue.ListRemove` | Source/iperf3/timer.c:100-108 | removes from the doubly linked list |
| `TimerQueue.TimerQueue.ListResort` | Source/iperf3/timer.c:112-118 | a timer whose deadline has changed moves to its place behind every one that is not later |
| `TimerQueue.TimerQueue.Create` | Source/iperf3/timer.c:122-151 | takes the first free timer or a new one, and queues it at now + usecs |
| `TimerQueue.TimerQueue.Cancel` | Source/iperf3/timer.c:215-224 | moves an active timer to the front of the free list; the lists stay disjoint |
| `TimerQueue.TimerQueue.Timeout` | Source/iperf3/timer.c:154-174 | the minimum over all active timers of the time left, 0 for an overdue one |
| `TimerQueue.OverdueWith` | Source/iperf3/timer.c:61-97 | putting a timer into the list adds just its own lateness to the total that bounds tmr_run |
| `TestTimers.Test.Run` | Source/iperf3/timer.c:177-200 | one tmr_run over a test's timers: it ends, never fires a timer that was not due, and fires each one-shot timer at most once and frees just the fired ones. Unless an omit period ends, it fires every timer that was due, deadlines move by one whole period for each firing, and a timer still due afterwards has been fired. In any case, with one timer of each kind, it fires those that were due and that the outcome computed from the list at entry does not leave out; and once it has fired the end of an omit period, the report timers are due at now plus their own periods. The flags and handles of the test say which ends it has fired |
| `TestTimers.Test.ReportLeftOut` | Source/iperf3/timer.c:180-199 | a report timer that is due is left out if and only if it stands behind the due end of an omit period |
| `TestTimers.Test.TestEndLeftOut` | Source/iperf3/timer.c:180-199 | the test's end, due behind the end of an omit period, is left out if and only if a report timer stands between the two or lands there on its way |
| `TestTimers.LateLook` | Source/iperf3/iperf_server_api.c:404-419 | a test with its omit period due at 5, statistics at 6 and its end at 7, run at 8: the timer for the end is due at 7, is not called and stays in the list |
| `TimerWalk.ReportSkipped` | Source/iperf3/timer.c:180-199 | over lists of deadlines: of what is due only timers behind the end of the omit period are left out, and every report timer there is |
| `TimerWalk.TestEndSkipped` | Source/iperf3/timer.c:180-199 | over lists of deadlines, when the test's end is left out, with any number of report periods in front of the omit period's end |
| `TimerWalk.CaughtExactly` | Source/iperf3/timer.c:180-199 | for the timers of a test, whose two report timers have the same period: the test's end is left out if and only if a report timer stands between, or one in front has a deadline there after some periods (just the next one, unless two take turns) |
| `TimerWalk.TwoLand` | Source/iperf3/timer.c:180-199 | two report timers of the same period in front of the omit period's end take turns up to it when they are no further apart than the period; otherwise only the later one has another turn |
| `TimerWalk.NothingSkipped` | Source/iperf3/timer.c:180-199 | nothing is left out when no omit period ends |
| `TestTimers.Test.Walk` | Source/iperf3/timer.c:180-199 | the loop itself: the timer it goes on with is always active or null, and the total overdue time falls with every round |
| `TestTimers.Test.Fire` | Source/iperf3/timer.c:184-198 | one firing lowers the total overdue time, also when the callback resets other timers; the fired timer is due one period later or free, and no deadline changes but those of the timers that the end of an omit period resets |
| `TestTimers.Test.Reset` | Source/iperf3/timer.c:203-212 | a reset timer is due at now plus its period, whenever it was due before; the set of active timers stays |
| `TestTimers.Test.Callback` | Source/iperf3/iperf_server_api.c:319-420 | the callbacks of a test: the end of the test and of the omit period give up their handles and set the flags, and the latter makes the report timers that there are due at now plus their own periods; no other deadline changes |
| `TestTimers.Test.CreateTimers` | Source/iperf3/iperf_server_api.c:362-445 | creates the timers asked for, each behind its own handle, in the server's order; the client's is the same |
| `TestTimers.Test.CancelTimers` | Source/iperf3/iperf_server_api.c:506-526 | cancels every timer behind a non-null handle, each once, and clears the handles |
| `TestTimers.Test.CancelReports` | Source/iperf3/iperf_server_api.c:506-513 | cancels the timers of statistics and reports and clears their handles |
| `TestTimers.Test.HandlesDistinct` | Source/iperf3/iperf_api.c:3276-3291 | non-null handles are distinct active timers, so no timer is cancelled twice |
| `TestTimers.Onwards` | Source/iperf3/timer.c:112-118 | where the saved next timer ends up when the fired one moves in the list or leaves it |
| `SessionSafety.NextInv` | Source/iperf3/iperf_server_api.c:240-316 | every event keeps the joint invariant of both programs, both channels and the listening socket, except the two that end the session early |
| `SessionSafety.RunInv` | Source/iperf3/iperf_server_api.c:595-943 | over every run the invariant holds until the server fails, which it cannot when the parameters fit and there is no type of service or no stream |
| `SessionSafety.Meaning` | Source/iperf3/iperf_client_api.c:303-410 | in every such state no side has met an unknown message, TEST_END has been sent at most once, streams match in id and direction, and every stranger has been denied, waits, or was dropped with a listening socket that was replaced, which takes an option that replaces it |
| `SessionSafety.Agreement` | Source/iperf3/iperf_api.c:2293-2311 | when both are done, the channels are empty and all streams exist. If the server's omit period ended before its results went out, the ends hold the same counts of a stream if and only if a double holds both ends' own counts, and up to 2^53 always; if it ended later, only if the client knows of no bytes at all |
| `SessionSafety.OptionsArrive` | Source/iperf3/iperf_api.c:2316-2520 | from the parameters on, the server has each option as the client was given it: omit period, segment size, window, type of service, no delay, number of streams and the two directions, and it sends and receives so many streams |
| `SessionSafety.SocketReplaced` | Source/iperf3/iperf_server_api.c:695-760 | when the streams are to be created and when the test starts, the server's listening socket is emptied exactly if an option makes it replace the socket; nothing else loses a waiting connection |
| `SessionCounts.CountsFromEvents` | Source/iperf3/iperf_api.c:2591-2618 | over any run, what an end has counted of a stream is the sum of the bytes that its events moved since its omit period ended, or since the start |
| `SessionCounts.FinalCounts` | Source/iperf3/iperf_api.c:2293-2311 | when both are done, both hold of every stream the bytes that the sending end counted as sent and the receiving end as received since their omit periods, up to 2^53 and when the server's omit period did not end too late |
| `SessionCounts.OmitBeforeEnd` | Source/iperf3/iperf_client_api.c:745-765 | the client never sends TEST_END before its omit period has ended |
| `SessionRuns.SessionCanBreak` | Source/iperf3/iperf_server_api.c:695-760 | some run ends with the server failed if and only if the text of the parameters is over 8192 bytes, or there are streams and a type of service |
| `SessionRuns.StrangerRun` | Source/iperf3/iperf_tcp.c:155-168 | the run with a type of service: a stranger during CREATE_STREAMS has its socket closed before the option is set on it |
| `SessionRuns.TooLongRun` | Source/iperf3/iperf_api.c:2423-2433 | the run with parameters that are too long |
| `SessionRuns.AskedRun` | Source/iperf3/iperf_client_api.c:416-500 | every session gets to where the parameters are on their way, by four events |
| `LateOmit.OmitCanSpoil` | Source/iperf3/iperf_server_api.c:404-419 | with counts within 2^53, some run to the end leaves the two ends in disagreement if and only if there are an omit period and a stream and the parameters fit |
| `LateOmit.SpoiltRun` | Source/iperf3/iperf_server_api.c:938-942 | such a run for every session of that kind, whatever its mode and number of streams: the server's omit timer fires when its results are out |
| `LateOmit.ToRunning` | Source/iperf3/iperf_client_api.c:630-797 | left alone, every session whose parameters fit comes to the running test |
| `LateOmit.ToEnd` | Source/iperf3/iperf_client_api.c:630-797 | and from there to its end |
| `Strangers.StrangersMakeNoDifference` | Source/iperf3/iperf_server_api.c:153-236 | any run in which the server does not fail, with its strangers left out, is a run as well, and ends in the same world but for the strangers in the listening queue and the counts of strangers |
| `Strangers.ErasedStep` | Source/iperf3/iperf_server_api.c:153-236 | an event either concerns a stranger and changes nothing else, or does without strangers what it does with them |
| `SessionSafety.Progress` | Source/iperf3/iperf_client_api.c:630-797 | until both are done one of them can go on |
| `SessionSafety.NearerTheEnd` | Source/iperf3/iperf_client_api.c:630-797 | every step brings the end nearer, and only a new stranger adds one step: a session with finitely many strangers ends |
| `ControlBodies.ParametersArrive` | Source/iperf3/iperf_api.c:2316-2520 | a server with its defaults has the client's parameters once it has read them from the body, whatever other members there are |
| `ControlBodies.ParametersTaken` | Source/iperf3/iperf_api.c:2423-2500 | whatever a server has before, each parameter it reads from the body replaces its own, and one that is not in the body leaves it |
| `ControlBodies.Found` | Source/iperf3/iperf_api.c:2423-2500 | under each key, compared without case, stands what the client put there |
| `ControlBodies.LongOthersDoNotFit` | Source/iperf3/iperf_api.c:2423-2433 | a title or extra data of more than 8190 bytes makes the parameters too long for the server |
| `ControlBodies.ShortOthersFit` | Source/iperf3/iperf_api.c:2423-2433 | 7000 bytes of other members always fit |
| `ControlBodies.ResultsArrive` | Source/iperf3/iperf_api.c:2527-2800 | the peer reads the reports of the streams as they were sent |
| `ControlBodies.ResultsFound` | Source/iperf3/iperf_api.c:2591-2618 | in the body of the results each stream has its id and its bytes under their keys, in the order of the streams |
| `ControlBodies.ReceiveReads` | Source/iperf3/iperf_api.c:2854-2920 | the messages of the session are what the framed bytes on the connection say; over the limit, or from 2^31 bytes on, nothing is read |
| `ControlBodies.ParametersAreExact` | Source/iperf3/iperf_api.c:2316-2420 | parameters are such messages when their numbers are ones that a double gives |
| `ControlBodies.ResultsAreExact` | Source/iperf3/iperf_api.c:2527-2625 | results are such messages when their counts have been through a double, as they have when they are sent |
| `SessionBytes.RunRefines` | Source/iperf3/iperf_api.c:1929-1939 | over any run that leaves the server alive, the bytes on the control connection (a cookie, states of one byte, bodies behind their length, in any mixture) are those of the messages and are read as them, and the session of bytes has no other such runs |
| `SessionBytes.NextRefines` | Source/iperf3/iperf_client_api.c:303-330 | one event of either is one of the other: each side takes the next thing off the connection by what it expects, and gets the message that was sent |
| `SessionBytes.ClientMeets` | Source/iperf3/iperf_client_api.c:303-410 | whenever the client reads, what it expects is what comes next and gets through |
| `SessionBytes.ServerMeets` | Source/iperf3/iperf_server_api.c:240-316 | the same for the server, but for parameters that are too long |
| `SessionBytes.StateBytes` | Source/iperf3/iperf_api.c:1929-1939 | a state goes as a byte of its own value, a negative one as 256 more, and comes back |
| `Streams.ServerModeIsOpposite` | Source/iperf3/iperf_api.c:2423-2500 | the server set up from the client's parameters takes the opposite mode |
| `Streams.AnyOrder` | Source/iperf3/iperf_api.c:639-812 | the mode does not depend on the order of role and direction on the command line: an end sends or receives as its role and the reverse flag say, or does both |
| `Streams.IdsDistinct` | Source/iperf3/iperf_api.c:4811-4836 | the ids 1, 3, 4, 5, ... are distinct |
| `Streams.IdsAre` | Source/iperf3/iperf_api.c:4811-4836 | they go up from 1 and leave out just 2 |
| `Streams.MergeRest` | Source/iperf3/iperf_api.c:2701-2793 | reports in the order of the streams find the streams they are about by id, whichever part of them is still to come |
| `Streams.ExchangeAgrees` | Source/iperf3/iperf_api.c:2293-2311 | after the exchange, server first, both ends hold the same counts for a stream if and only if a double holds the own count of either, as it does up to 2^53 |
| `Streams.TooManyBytes` | Source/iperf3/iperf_api.c:2591-2618 | one byte more gets lost |
| `StreamList.Test.SetTestRole` | Source/iperf3/iperf_api.c:639-656 | the setter works out the mode as the pure function does |
| `StreamList.Test.SetTestReverse` | Source/iperf3/iperf_api.c:671-686 | the same for the reverse flag |
| `StreamList.Test.SetTestBidirectional` | Source/iperf3/iperf_api.c:805-812 | the same for the bidirectional flag |
| `StreamList.Test.AddStream` | Source/iperf3/iperf_api.c:4811-4836 | appends to the linked list and gives the stream the id of its position |
| `StreamList.Test.FindStream` | Source/iperf3/iperf_api.c:2736-2741 | the first stream of the list with the id, or null |
| `StreamList.FirstFound` | Source/iperf3/iperf_api.c:2736-2741 | a position with the id and none before it is the one that is found |
| `StreamList.Test.GetResults` | Source/iperf3/iperf_api.c:2701-2793 | every report updates its stream; it fails exactly when some id is unknown |
| `StreamList.Test.SendResults` | Source/iperf3/iperf_api.c:2591-2618 | one report for each stream, with the omitted bytes taken off |
| `UdpLoss.HeaderRoundTrip` | Source/iperf3/iperf_udp.c:96-117 | the number read from a datagram is the one written exactly while it fits 32 or 64 bits |
| `UdpLoss.HeaderLayout` | Source/iperf3/iperf_udp.c:221-247 | a datagram starts with seconds and microseconds in four bytes each and has its number in the next four or eight, the most significant byte first |
| `UdpLoss.HeardGood` | Source/iperf3/iperf_udp.c:138-169 | a datagram keeps the loss counter equal to the count of missing numbers, or at most that once a number has come twice; before that the zero guard never bites |
| `UdpLoss.StaysRight` | Source/iperf3/iperf_udp.c:138-169 | a right count stays right if and only if the datagram is new or nothing is missing |
| `UdpLoss.RepeatHidesLoss` | Source/iperf3/iperf_udp.c:138-169 | the run in which 1, 2 and 3 are sent and 1, 3 and again 3 arrive: one loss is reported, then none, and 2 is still missing |
| `UdpLoss.LossesAreMissing` | Source/iperf3/iperf_udp.c:138-262 | over every run of writes and arrivals in any order: reported losses are the missing numbers, and sent = received + lost + not yet seen |
| `UdpLoss.RunTells` | Source/iperf3/iperf_udp.c:138-262 | over every run, from the list of events alone: the packet count is the highest number that came; out of order are those that came behind one as high or higher; and the losses are the most, since any moment, by which the highest number has gone up more than datagrams have come |
| `UdpLoss.HeardTells` | Source/iperf3/iperf_udp.c:138-169 | one more datagram, of any number, keeps the counters to that |
| `StreamStats.Stream.UdpSend` | Source/iperf3/iperf_udp.c:211-262 | whatever the writes give, the numbers on the wire are 1, 2, ..., packet_count, and the datagrams hold all bytes sent |
| `StreamStats.Stream.UdpRecv` | Source/iperf3/iperf_udp.c:55-205 | bytes and packets are counted exactly for data in the running state |
| `StreamStats.Stream.CountPacket` | Source/iperf3/iperf_udp.c:138-169 | the counters move as the tally over all received numbers does, and stay what the numbers, in the order they came, call for |
| `StreamStats.Stream.TcpSend` | Source/iperf3/iperf_tcp.c:93-117 | bytes sent and pending make whole blocks, and the block count goes up with the last byte of one |
| `StreamStats.Stream.TcpRecv` | Source/iperf3/iperf_tcp.c:57-86 | bytes are counted exactly in the running state |
| `StreamStats.Stream.CloseInterval` | Source/iperf3/iperf_api.c:3544-3635 | the interval gets the open bytes and the change of the counters since the last interval kept; nothing is lost or counted twice |
| `StreamStats.Stream.AddToIntervalList` | Source/iperf3/iperf_api.c:2953-2968 | the list holds the last interval and no other |
| `StreamStats.Stream.Reset` | Source/iperf3/iperf_api.c:3500-3519 | the end of the omit period starts the byte accounts again |
| `StreamStats.Stream.Conservation` | Source/iperf3/iperf_api.c:3544-3635 | the UDP counts of all intervals telescope to the counters; beside it, from the invariant that every operation keeps, the bytes of the intervals since the reset and of the open one are the bytes moved since the reset |
| `StreamStats.Stream.CountsSinceReset` | Source/iperf3/iperf_api.c:3500-3507 | the UDP counts of the intervals since the reset are the counters less the omitted part if and only if nothing was counted between the last interval and the reset |
| `StreamStats.CountedBeforeReset` | Source/iperf3/iperf_api.c:3500-3507 | a packet counted between the last interval and the reset, for which they are not |
| `StreamStats.Telescope` | Source/iperf3/iperf_api.c:3598-3612 | from any interval on, the counts of the intervals add up to the change of the counters |
| `TestStats.Test.StatsCallback` | Source/iperf3/iperf_api.c:3544-3643 | every stream closes its interval, which has the bytes that were open and the counters as they are, and the server's check gets the sum of all open bytes |
| `TestStats.Test.ResetStats` | Source/iperf3/iperf_api.c:3492-3519 | all streams and the test's count start again; no stream's pacing changes |
| `TestStats.Test.Work` | Source/iperf3/iperf_client_api.c:80-91 | one turn of a sending worker keeps the test's count of bytes sent equal to the sum over its streams, and keeps the stream paced |
| `TestRuns.RunTest` | Source/iperf3/iperf_client_api.c:80-95 | over any sequence of turns of sending and receiving workers, interval callbacks, ends of the omit period, waiting and the end: every stream keeps to the target rate up to rounding and one go of messages and has not been made to sleep for longer than its bits take at that rate, its interval bytes add up to what it has moved, datagrams are numbered without a gap, the counters of a receiving stream are those of UdpLoss.RunTells for the datagrams that the events brought it, the test's count is the sum over its streams, and the server's flag tells whether some window was over the limit |
| `Pacing.BelowRate` | Source/iperf3/iperf_api.c:1961-1971 | the truncated rate is below the target exactly when the bits are below rate times elapsed time |
| `Pacing.SleepIsEnough` | Source/iperf3/iperf_api.c:1973-2010 | after the computed sleep the stream is within the rate again, up to one bit and what the rate gives in a nanosecond |
| `Pacing.SleepIsNotTooLong` | Source/iperf3/iperf_api.c:1973-1978 | the computed sleep times the rate is no more than the bits that the stream is ahead, and less by rounding only |
| `Pacing.NeverBelow` | Source/iperf3/iperf_api.c:1973-2010 | so when the sleep takes just the time asked for, the stream wakes with the bits that the rate asks for, or more |
| `TestStats.Test.CheckThrottle` | Source/iperf3/iperf_api.c:1942-2013 | the light is green exactly for a stream below the rate and for one above it by a bit a second or more whose sleep was not interrupted; the nanoseconds asked for times the rate are no more than the bits it is ahead; green means within the rate up to rounding; without a rate or when done nothing changes |
| `TestStats.Test.Sleep` | Source/iperf3/iperf_api.c:1999-2009 | the loop of sleeps shorter than a second asks for just the whole time if none is interrupted, and then takes at least that; it never asks for more, and ends with the first one interrupted |
| `TestStats.Test.SendMt` | Source/iperf3/iperf_api.c:2057-2124 | bits sent never exceed rate times elapsed time plus rounding plus one burst (or one message); nothing goes out under a red light, and a whole go under a green one unless a write fails or a limit is reached, behind which at most one more message goes out; the throttle is checked, and asks for no longer a sleep than the stream is ahead |
| `TestStats.Test.Start` | Source/iperf3/iperf_api.c:2149-2185 | the bound holds from the start of the test |
| `TestStats.Test.PacedLater` | Source/iperf3/iperf_api.c:1942-2013 | waiting keeps the bound |
| `RateWindow.RateLimit.CheckTotalRate` | Source/iperf3/iperf_api.c:2018-2054 | the flag is up if and only if some full window of the last n values has been over the limit, in whole bits a second |
| `RateWindow.RingTotal` | Source/iperf3/iperf_api.c:2028-2041 | from the n-th call on the total over the ring is the sum of the last n values |
| `RateWindow.RingStore` | Source/iperf3/iperf_api.c:2028-2031 | storing one slot further on replaces the oldest value and no other |
| `RateWindow.ExceededStep` | Source/iperf3/iperf_api.c:2043-2053 | a new value adds one window, the last one |
| `RateWindow.WindowFits` | Source/iperf3/iperf_api.c:1883-1888 | a window from the options takes 1 to 60 slots if and only if it is not 0 and shorter than 60.5 intervals |
| `RateWindow.WindowLength` | Source/iperf3/iperf_api.c:1883-1888 | a window from the options is as long as was asked for, to within half an interval, and at least one interval |
| `RateWindow.OverLimit` | Source/iperf3/iperf_api.c:2043-2053 | a window is over the limit exactly when its bits are those of the next higher whole rate, or more |
| `RateWindow.WindowsThatDoNotFit` | Source/iperf3/iperf_api.c:1883-1888 | two windows that the options allow and that do not: 60 seconds of 0.1 second intervals take 600 slots, and 0 takes none |

## Left out

- Floating-point text, the locale's decimal point, NaN and infinity: numbers are integers, and `strtod` and `sprintf` are exact on them.
- RoundTrip.RoundTrips: integers that no double gives are not covered; beyond 2^53 these are most.
- Allocation failure and allocator hooks, other than the two ways of growing the print buffer; freeing memory, also of the half-built tree after a parse error.
- Raw, invalid and reference items, and strings that are NULL in a tree (`PrintBuffer.PrintBuffer.PrintStringPtr` alone covers NULL).
- RfcAcceptance.AcceptedExactly: not for inputs that have a literal with a quote or backslash among the four bytes behind a `\u` escape, as in `StringBounds.PassesFallOutOfStep`; there the parser's two passes read different strings.
- RfcErrors.NoComma: what is reported for an input that ends too early is stated for the values of `RfcErrors.NoValue` only.
- RfcParsing.ValueAccepted: numerals of more than 63 characters are cut off by the source and are not covered; whether the bytes of a string are valid UTF-8 is not looked at, as in the source.
- TreeParser.ParseObject: the byte that the source reads behind its input in the case of `InputEnd.LooksExactly` is not part of the model; the source fails there whatever that byte is.
- Compare.CompareMeaning: the comparison works on values; the shortcut for two pointers to the same item is not part of the model.
- Items.DetachItemViaPointer: only items of the given list are detached, replaced or inserted before, as callers do; `ReplaceItemViaPointer` does not free the old item.
- JsonFrame.ReadWritten: texts of 4 GiB and more, whose length does not fit the 32-bit header, are not covered.
- TreePrinter.PrintBuffered: a first guess of 0 without `realloc` is excluded, where the source copies a byte out of a buffer that has none.
- Items.InsertItemInArray: null, or the list itself, inserted at an index in range is excluded; the source dereferences the null, or links the list into itself.
- Items.AddItemToArray: the ghost value of a tree is kept up by `Building` for appending; for the other list operations it is not.
- IperfTime.AddIsExact: getting the time, and seconds that wrap; the timer proofs assume that deadlines do not wrap.
- TestTimers.Test.Run: which timers are fired when an omit period ends is stated for one timer of each kind, as every test has. Periods are at least 1 microsecond, as with period 0 it would not end. `tmr_cleanup` and `tmr_destroy` are not modelled.
- TestTimers.Test.Callback: what the callbacks print and the freeing of the streams by the server's timer are not part of it.
- SessionSafety.RunInv: system calls that fail (also those that set an option to a value the system does not take), signals, idle and receive timeouts, authentication, limits the server has of its own (bitrate, duration), the UDP and SCTP variants of stream setup, and a stranger that gets in before the first client are not modelled.
- ControlBodies.ParametersArrive: of the parameters, those that the session depends on are read; the others are members of any name and simple value, in any number, put last. Results are the ids and byte counts of the streams; jitter, retransmits, CPU use, times and server output are left out.
- ControlBodies.ReceiveReads: bodies of 4 GiB and more are not covered.
- SessionBytes.RunRefines: the number of streams is at most 128, as the options allow, the parameters are shorter than 4 GiB, and their other members have numbers that a double gives. A handler has the bytes of a whole message when it reads; waiting for the rest of one is not modelled.
- TestRuns.RunTest: each turn and each callback is one step, and the test's count of bytes received is not modelled.
- StreamStats.Stream.CloseInterval: times, jitter and TCP information of an interval are not modelled; the threads' races between reading and zeroing a counter are not either, as every step is atomic.
- UdpLoss.LossesAreMissing: counters are unbounded; a datagram that carries number 0 is counted by `StreamStats.Stream.CountPacket` but no sender sends one.
- TestStats.Test.SendMt: the test must have been running for more than 0 microseconds, where the source divides by the elapsed time; bytes that a failed write put on the wire without reporting them are not counted, as in the source.
- RateWindow.RateLimit.CheckTotalRate: windows that do not fit are not covered: those of 0 intervals, where the source divides by 0 seconds, and those of more than 60, which leave the ring.
- `diskfile_send`, sockets and their options, threads, files, argument parsing, reporting, `iperf_auth.c`, `iperf_sctp.c` and the application around the library.
