# Verification of VUMA's self-contained algorithms

A Dafny model of the parts of VUMA that can be understood on their own: the hand-written JSON reader and printers, the JSON
codec of diagnostics, civil-date arithmetic, the searches over the semantic computation graph, the CRC-32 and Base64 programs
of the known-answer tests, the command line parser, and four small state machines of the test tooling (the output codec and
batching of the compact harnesses, the crash-resumable sweep, the bump allocator behind `mmap`, and the HMAC_DRBG reference).

`dafny verify dfyconfig.toml` checks the whole project.

## How it is laid out

Code that works step by step is modelled as classes and loops. Each such method is proved equal to a specification function,
and the theorems are about the functions.

| files | content |
|---|---|
| `Common`, `Numerals`, `Utf8` | shared types, decimal and hexadecimal digits, UTF-8 of section 3 of RFC 3629 |
| `JsonValue`, `JsonPrint` | values, insertion with duplicate keys, both printers |
| `JsonGrammar`, `JsonParser` | what the recursive descent computes at every position, and the parser object with its position |
| `JsonSyntax`, `JsonReading`, `JsonTrees` | RFC 8259 texts as trees, and what the parser does with the text of a tree |
| `JsonRoundTrip`, `JsonSoundness`, `JsonLanguage` | the round trip, what holds of every input, the exact language of the parser |
| `JsonLayout`, `JsonErrors` | what both prints look like, and what stands where an error is reported |
| `Diagnostics`, `DiagnosticsDecoding` | diagnostics with causal chains, through JSON values and through text, and what decoding makes of any JSON value |
| `CivilTime` | `civil_from_days` and the RFC 3339 formatter against the Gregorian calendar |
| `ScgSearch` | the edge index, reachability, the search for a return type |
| `Crc32`, `Crc32Polynomial`, `Base64` | the two programs against CRC-32 as a remainder over GF(2) (section 8 of RFC 1952) and sections 3 and 4 of RFC 4648 |
| `Cli`, `CliParser` | what an argument vector means, and the parser loops |
| `CliWriter`, `CliRoundTrip`, `CliRefusals` | argument vectors written from literal tokens, what they parse to, and what is refused |
| `CompactHarness`, `HarnessBatches` | the `print_int` codec, batch slicing and vector indexing |
| `Sweep`, `WasmHeap`, `HmacDrbg` | the sweep, the bump allocator, the generator |

## What is true, and what is not quite

* **The JSON parser accepts exactly a named language** (`JsonLanguage.LanguageExact`). Its documentation says the full grammar
  of RFC 8259. A text that grammar derives is accepted exactly when it nests at most 512 deep, each of its numbers has a value,
  and each of its surrogate escapes is half of a pair (`JsonTrees.StandardTextsAccepted`); section 8.2 of RFC 8259 gives
  `"\uDEAD"` as a text its grammar allows, and the parser refuses it (`JsonTrees.UnpairedSurrogateRefused`). Otherwise the
  language is larger than that of RFC 8259: a trailing comma is allowed, `\u` takes a plus sign and three digits because the
  library's radix parser does, and what may stand in a fraction or exponent is left to the library's float parser. A text of a
  tree that is refused is refused with the error of the first fault in it (`JsonTrees.ReadsDocument`).
* **Printing and reading back is the identity on exactly the canonical values** (`JsonRoundTrip.RoundTrip`): distinct keys,
  signed integers only when negative, depth at most 512. The documentation says integers are read as `i64`; the code reads
  non-negative ones as `u64`. `-0` is read as a signed zero, which prints as `0` (`JsonSoundness.NegativeZeroChanges`).
* **Four error branches of the parser are dead** for every Rust string (`JsonSoundness.ParseSound`): the `from_utf8` errors of
  strings and numbers and both invalid code point errors.
* **A diagnostic survives its text form exactly when its chains nest at most 255 deep and whatever hangs 255 links down has
  neither related entries nor structured suggestions** (`Diagnostics.TextRoundTrip`).
* **Timestamps are RFC 3339 exactly in the years 0000 to 9999** (`CivilTime.FormatReadsBack`).
* **A hexadecimal harness stream is decoded correctly exactly when the first vector has output**
  (`CompactHarness.HexDecodes`); a decimal one always is.
* **A sweep's result file is right exactly when the first process lived to write the header and no process ever left it ending
  inside a line** (`Sweep.SweepGoodExactly`). A torn row counts as done, so its source is never run again
  (`Sweep.TornRowCounted`). Without a header the row count starts at -1, and with a chunk no longer than the file list no later
  round writes anything (`Sweep.EmptyFileStalls`).
* **An HMAC_DRBG that was never seeded still answers requests**, one more of them than a seeded one before it refuses
  (`HmacDrbg.CounterInRun`).

Floats are IEEE bit patterns, and the library's float routines are a parameter `FloatLib(read, show)`. Theorems that print floats
ask that each float in the value prints as a numeral with a fraction or exponent that is read back as that float; a float-free
value satisfies this for any library (`JsonRoundTrip.FloatFreeReadsBack`).

The maximum size of linear memory is a parameter of the `WasmHeap` theorems, at most 32768 pages (2 GiB). The runner itself has no
such test: the limit is the one the compiled module declares (256 pages, `src/codegen/src/wasm32/mod.rs:4984`), and the engine
enforces it.

## Model

| member | source | states |
|---|---|---|
| `Utf8.DecodeEncode` | src/json_value.rs:622-625 | `from_utf8` recovers every string from its bytes |
| `Utf8.EncodeDecode` | src/json_value.rs:622-625 | bytes that decode are the bytes of what they decode to, so strings and valid byte strings correspond one to one |
| `Utf8.HeadOfEncodeChar` | src/json_value.rs:676-680 | the bytes of a character, followed by anything, are read as exactly that character |
| `JsonValue.InsertInPlace` | src/json_value.rs:283-292 | the scan and overwrite give the functional insertion |
| `JsonValue.InsertAtFirst` | src/json_value.rs:286-290 | insertion changes the first entry with the key and nothing else, or appends |
| `JsonValue.InsertSpec` | src/json_value.rs:283-292 | after an insertion the key has the new value, every other key its old one, and the key order grows only by a new key |
| `JsonValue.LookupFirst` | src/json_value.rs:94-100 | `get` returns the value of the first entry with the key, and nothing exactly when there is none |
| `JsonValue.FoldIsFirstKeyLastValue` | src/json_value.rs:545-583 | repeated keys: each stays where it first occurs, holds its last value, and occurs once |
| `JsonValue.FoldDistinct` | src/json_value.rs:557-561 | distinct keys are kept as written |
| `JsonValue.NormalFixed` | src/json_value.rs:759-766 | the values unchanged by printing and reading are exactly the canonical ones |
| `JsonPrint.PushIndent` | src/json_value.rs:383-387 | two spaces per level are appended: `Indent(n)` is 2n spaces |
| `JsonPrint.WriteJsonString` | src/json_value.rs:393-411 | the character loop appends the quoted form of the string |
| `JsonPrint.WriteCompact` | src/json_value.rs:248-279 | appends the compact text of the value and changes nothing before it |
| `JsonPrint.WriteCompactItems` | src/json_value.rs:257-264 | the element loop appends the elements with commas between |
| `JsonPrint.WriteCompactEntries` | src/json_value.rs:267-276 | the member loop appends quoted keys, colons and values with commas between |
| `JsonPrint.WritePretty` | src/json_value.rs:199-246 | appends the indented text of the value at its indentation |
| `JsonPrint.WritePrettyItems` | src/json_value.rs:214-221 | the line-by-line element loop produces the same text as element, comma, break |
| `JsonPrint.WritePrettyEntries` | src/json_value.rs:231-240 | the same for members |
| `JsonPrint.ToStringCompact` | src/json_value.rs:193-197 | a fresh buffer ends as exactly the compact text |
| `JsonPrint.ToStringPretty` | src/json_value.rs:185-189 | a fresh buffer ends as exactly the pretty text |
| `JsonLayout.PrettyIsIndented` | src/json_value.rs:183-246 | in the pretty print, every line feed outside strings is followed by exactly two spaces for each open bracket, one bracket less before a closing one; a comma ends its line, a colon is followed by exactly one space, empty containers are closed at once, and there is no other white space |
| `JsonLayout.CompactIsTight` | src/json_value.rs:193-279 | the compact print has no white space outside strings |
| `JsonLayout.EscapeForm` | src/json_value.rs:396-408 | a character stands for itself unless it is a quote, a backslash or a control character; seven have short forms, the rest `\u00` and two lower-case digits |
| `JsonGrammar.SkipSpace` | src/json_value.rs:482-489 | only white space is skipped, and all of it |
| `JsonGrammar.ValueAt` | src/json_value.rs:508-529 | a value ends inside the input and not before its start; an error is reported inside the input |
| `JsonGrammar.Document` | src/json_value.rs:446-461 | an accepted document is consumed to its last byte |
| `JsonParser.Parser.Skip` | src/json_value.rs:482-489 | moves the position exactly past the white space |
| `JsonParser.Parser.Require` | src/json_value.rs:491-506 | consumes the expected byte, or reports what was there and stays |
| `JsonParser.Parser.ParseLiteral` | src/json_value.rs:531-543 | consumes the literal or fails where it stands |
| `JsonParser.Parser.ParseUnicodeEscape` | src/json_value.rs:646-700 | agrees with the escape grammar: same bytes, same position, same error |
| `JsonParser.Parser.ParseString` | src/json_value.rs:617-717 | the byte loop agrees with the string grammar |
| `JsonParser.Parser.ScanNumber` | src/json_value.rs:719-755 | the scan stops at the end of the lexeme and knows whether a fraction or exponent was seen |
| `JsonParser.Parser.ScanInteger` | src/json_value.rs:722-730 | sign, then one zero or a run of digits |
| `JsonParser.Parser.ScanFraction` | src/json_value.rs:731-737 | moves exactly when there is a point |
| `JsonParser.Parser.ScanExponent` | src/json_value.rs:738-752 | moves exactly when there is an exponent letter |
| `JsonParser.Parser.ParseNumber` | src/json_value.rs:719-768 | agrees with the number grammar, range errors included |
| `JsonParser.Parser.ParseValue` | src/json_value.rs:508-529 | agrees with the value grammar at every depth; the position never goes back or past the end; the call returns |
| `JsonParser.Parser.ParseArray` | src/json_value.rs:585-615 | agrees with the array grammar |
| `JsonParser.Parser.ParseItems` | src/json_value.rs:592-614 | the element loop finds the elements the grammar finds |
| `JsonParser.Parser.ParseObject` | src/json_value.rs:545-583 | agrees with the object grammar |
| `JsonParser.Parser.ParseMember` | src/json_value.rs:553-556 | key, colon and value, with the errors of each |
| `JsonParser.Parser.ParseMembers` | src/json_value.rs:552-582 | overwriting in place as members arrive gives the fold of the members as written |
| `JsonParser.Parse` | src/json_value.rs:446-461 | the parser object computes the document grammar of the text's bytes |
| `JsonReading.SurrogateBijection` | src/json_value.rs:670-673 | surrogate pairs and the code points U+10000 to U+10FFFF correspond one to one |
| `JsonReading.ReadsHex` | src/json_value.rs:650-653 | four digits in either case, or a plus sign and three, are read as their number |
| `JsonReading.ReadsSpelled` | src/json_value.rs:621-713 | however a character is written (itself, a short escape, a numbered escape), the loop collects exactly its UTF-8 bytes |
| `JsonReading.ReadsPair` | src/json_value.rs:654-685 | two numbered escapes for the halves of a supplementary character contribute that character's bytes |
| `JsonReading.UnpairedHigh` | src/json_value.rs:654-672 | a high half that no low one follows is refused, whatever follows, with the error for what does |
| `JsonReading.ReadsString` | src/json_value.rs:617-717 | every spelling of a string is read as that string, or refused with the error of its first unpaired surrogate escape |
| `JsonReading.ScansNumeral` | src/json_value.rs:719-755 | the scanner stops exactly at the end of a numeral, and sees a float exactly when there is a fraction or exponent |
| `JsonReading.ReadsNumeral` | src/json_value.rs:719-768 | a numeral is read as its base-ten value in the type its sign selects, or refused when out of range |
| `JsonTrees.ReadsTree` | src/json_value.rs:508-529 | at any position and depth, the text of a tree is read as its value, or refused with the error of its first fault: depth, a number, or a surrogate escape |
| `JsonTrees.ReadsList` | src/json_value.rs:585-615 | the same for arrays with any white space, with or without a trailing comma |
| `JsonTrees.ReadsRecord` | src/json_value.rs:545-583 | the same for objects, repeated keys included |
| `JsonTrees.ReadsDocument` | src/json_value.rs:446-461 | every text of every legal tree, with white space around it, is read as the value the tree stands for, or refused with the error of the first fault in it |
| `JsonTrees.FaultExactly` | src/json_value.rs:508-529 | a tree has no fault exactly when it stands for a value and nests at most 512 deep; when it is only too deep, that is the fault |
| `JsonSyntax.DenotedExactly` | src/json_value.rs:441-445 | a tree stands for a value exactly when each of its numbers does and each of its surrogate escapes is half of a pair of neighbours |
| `JsonTrees.StandardTextsAccepted` | src/json_value.rs:441-461 | every text the grammar of RFC 8259 derives is accepted exactly when it nests at most 512 deep, each of its numbers has a value, and each of its surrogate escapes is paired |
| `JsonTrees.UnpairedSurrogateRefused` | src/json_value.rs:688-691 | `"\uDEAD"`, which that grammar derives, is refused as a lone low surrogate |
| `JsonRoundTrip.EscapeSpells` | src/json_value.rs:396-408 | what the printer writes for a character is a spelling RFC 8259 allows |
| `JsonRoundTrip.IntegerFacts` | src/json_value.rs:203-204 | a printed integer is a standard numeral and is read as that integer, unsigned unless negative |
| `JsonRoundTrip.PrintIsStandard` | src/json_value.rs:199-279 | both printers write nothing but texts RFC 8259 allows |
| `JsonRoundTrip.FloatFreeReadsBack` | src/json_value.rs:205-207 | a value without floats needs nothing from the float library |
| `JsonRoundTrip.ParseRender` | src/json_value.rs:446-461 | for both printers, the print of a value at most 512 deep is read as its normal form, and a deeper one is refused with the depth error |
| `JsonRoundTrip.RoundTrip` | src/json_value.rs:185-279 | printing then parsing is the identity exactly on canonical values of depth at most 512 |
| `JsonSoundness.UnicodeEscapeSound` | src/json_value.rs:646-700 | an accepted escape yields valid UTF-8, ends between characters, and the invalid code point branches never run |
| `JsonSoundness.StringBodySound` | src/json_value.rs:617-717 | the collected bytes are always UTF-8, so `from_utf8` cannot fail |
| `JsonSoundness.ValueSound` | src/json_value.rs:508-529 | a returned value has distinct keys everywhere, no positive signed integer, and fits the depth left |
| `JsonSoundness.ParseSound` | src/json_value.rs:446-461 | for every string: four error branches are dead, and a returned value has distinct keys and depth at most 512 |
| `JsonSoundness.RenderNormal` | src/json_value.rs:199-279 | a parsed value and its normal form print alike |
| `JsonSoundness.ReprintStable` | src/json_value.rs:446-461 | print, reparse and print again gives the same text |
| `JsonSoundness.NegativeZeroChanges` | src/json_value.rs:759-762 | `-0` is read as a signed zero and its print as an unsigned one |
| `JsonLanguage.HexFormOf` | src/json_value.rs:652-653 | what the library accepts in four bytes is four hexadecimal digits, or a plus sign and three |
| `JsonLanguage.CharsIn` | src/json_value.rs:617-717 | an accepted string is a sequence of legal spellings |
| `JsonLanguage.ValueIn` | src/json_value.rs:508-529 | an accepted value is the text of a legal tree |
| `JsonLanguage.LanguageExact` | src/json_value.rs:446-461 | a text is accepted with a value if and only if it is a text of a legal tree, at most 512 deep, that stands for that value |
| `JsonLanguage.TrailingCommaAccepted` | src/json_value.rs:601-604 | a trailing comma in an array is accepted and changes nothing |
| `JsonLanguage.PlusSignAccepted` | src/json_value.rs:652-653 | a plus sign and three digits after `\u` are accepted as the character they number |
| `JsonErrors.ErrorShows` | src/json_value.rs:446-770 | for every text that is refused, the kind of error and its position say what stands there: the end of the text, which byte was not what was expected, which escape or number has no value, or 513 opening brackets before it |
| `JsonErrors.BodyShows` | src/json_value.rs:617-717 | the same for the errors inside strings |
| `JsonErrors.NumberShows` | src/json_value.rs:719-770 | a number is refused at its end, and only when the characters from its start to there have no value |
| `Diagnostics.LocationReadsBack` | src/diagnostics.rs:223-253 | a location is recovered from its JSON value |
| `Diagnostics.RelatedReadsBack` | src/diagnostics.rs:296-310 | a related entry is recovered, and the leaves of its encoding lie two containers down |
| `Diagnostics.SuggestionReadsBack` | src/diagnostics.rs:420-458 | a suggestion is recovered whichever optional fields it has |
| `Diagnostics.ItemsInside` | src/diagnostics.rs:895-904 | a field is structurally inside its object, so decoding chains ends |
| `Diagnostics.FromToJson` | src/diagnostics.rs:832-931 | decoding the JSON value of a diagnostic returns it, however deep its chains |
| `Diagnostics.ToJsonPlain` | src/diagnostics.rs:832-866 | the encoding is canonical and float-free |
| `Diagnostics.DepthOfChains` | src/diagnostics.rs:832-866 | each causal link costs two levels of JSON: the depth is at most 2n + 2 exactly when chains nest at most n and level n is bare |
| `Diagnostics.TextRoundTrip` | src/diagnostics.rs:868-872 | `from_json_str` of either print returns the diagnostic exactly when chains nest at most 255 deep and level 255 is bare; otherwise it reports the depth error |
| `Diagnostics.NestingLimits` | src/diagnostics.rs:868-872 | 254 links always survive, 256 never do |
| `DiagnosticsDecoding.LocationDecodes` | src/diagnostics.rs:240-253 | for every JSON value: it is read as a location exactly when it has the text and the four whole numbers, of which the low 32 bits are kept |
| `DiagnosticsDecoding.RelatedDecodes` | src/diagnostics.rs:304-310 | for every JSON value: it is read as a related entry exactly when it has a location that can be read and a message |
| `DiagnosticsDecoding.SuggestionDecodes` | src/diagnostics.rs:438-458 | for every JSON value: it is read as a suggestion exactly when it has a message; a missing or bad edit range or replacement is none, and an applicability that is not one of the four names is `Unspecified` |
| `DiagnosticsDecoding.DiagnosticDecodes` | src/diagnostics.rs:875-931 | for every JSON value: it is read as a diagnostic exactly when it has a code, one of the four severities, a message and a source; a missing or bad location is no file and four zeros, each list is that of its member, and the plain texts are looked for at `legacy_suggestions` exactly when `suggestions_legacy` is absent |
| `DiagnosticsDecoding.RelatedsKept` | src/diagnostics.rs:886-894 | of a list, the entries that can be decoded are kept in order, every other is dropped, and nothing after it is lost |
| `DiagnosticsDecoding.SuggestionsKept` | src/diagnostics.rs:895-899 | the same for suggestions |
| `DiagnosticsDecoding.ChainKept` | src/diagnostics.rs:900-909 | the same for the causal chain |
| `DiagnosticsDecoding.TextsKept` | src/diagnostics.rs:910-919 | the same for plain texts |
| `DiagnosticsDecoding.LocationEncodes` | src/diagnostics.rs:224-237 | the names of the members in order, and the value of each |
| `DiagnosticsDecoding.RelatedEncodes` | src/diagnostics.rs:296-301 | the same for a related entry |
| `DiagnosticsDecoding.SuggestionEncodes` | src/diagnostics.rs:420-435 | the same for a suggestion; an absent edit range or replacement is not written |
| `DiagnosticsDecoding.DiagnosticNames` | src/diagnostics.rs:832-866 | the names of the members in order; the plain texts are written only when there are some |
| `DiagnosticsDecoding.DiagnosticEncodes` | src/diagnostics.rs:832-866 | every field is written under its own name |
| `CivilTime.EraIsFloor` | src/time.rs:45 | the adjusted truncating division is floor division, for negative days too |
| `CivilTime.YearOfEra` | src/time.rs:47 | the estimate of the year of the era is the year whose days contain it |
| `CivilTime.MonthOfYear` | src/time.rs:50-51 | the 153-day arithmetic finds the month whose days contain it |
| `CivilTime.CivilIsValid` | src/time.rs:40-54 | every day number gives a valid Gregorian date, and that date has that day number |
| `CivilTime.CivilOfDays` | src/time.rs:40-54 | every valid date is given by its day number: the two are inverse bijections |
| `CivilTime.CivilIncreases` | src/time.rs:40-54 | later days give later dates, and only they |
| `CivilTime.CivilSuccessor` | src/time.rs:40-54 | day 0 is 1970-01-01, and the next day is the calendar successor |
| `CivilTime.YearRange` | src/time.rs:96-98 | the seconds whose year lies in 0 to 9999 |
| `CivilTime.FormatFields` | src/time.rs:96-103 | 20 characters, digits and separators where they belong, each field the right number |
| `CivilTime.FormatAnyYear` | src/time.rs:96-103 | for every number of seconds, before year 0 and after 9999 too: the signed year padded to four characters, then two digits each for month, day, hour, minute and second of the date and time it denotes |
| `CivilTime.FormatReadsBack` | src/time.rs:96-103 | the text is an RFC 3339 timestamp exactly for those seconds, and then it denotes them |
| `CivilTime.OrderPreserved` | src/time.rs:96-103 | text order is time order |
| `CivilTime.NoOverflow` | src/time.rs:40-54 | no `i64` number of seconds overflows the day arithmetic |
| `ScgSearch.BuildIndex` | src/api.rs:1456-1474 | looking a node up returns the same edges in the same order as filtering the edge list |
| `ScgSearch.PositionsOfOut` | src/api.rs:1456-1474 | the filtered edges are those at increasing positions of the edge list |
| `ScgSearch.PositionsComplete` | src/api.rs:1456-1474 | and no edge that satisfies the filter is left out |
| `ScgSearch.CountReachable` | src/api.rs:1502-1517 | the set is the least one that contains the entry and is closed under control flow, and the count is its size |
| `ScgSearch.LeastIsReachable` | src/api.rs:1502-1517 | that set is the set of nodes that a chain of control-flow edges leads to |
| `ScgSearch.TypeOfReturn` | src/api.rs:1672-1685 | the result type of the source of the first edge, in the order of the edge list, that is a data-flow edge into the node from a computation with a result type; "void" when there is no such edge |
| `ScgSearch.ExpandNode` | src/api.rs:1667-1690 | a return node met while expanding ends the best route; with none met, the waiting nodes stay in the order of their best routes |
| `ScgSearch.FindReturnType` | src/api.rs:1654-1695 | on every graph the search ends; among all routes of control-flow edges to a return node other than the entry it answers for the end of the shortest, and of equally short ones the first in the order of the edge list; "void" when there is none |
| `ScgSearch.NextLevel` | src/api.rs:1664-1692 | when a level is used up, what has been visited is everything within the next distance |
| `ScgSearch.LeavesAfter` | src/api.rs:1666-1668 | a route that leaves the visited nodes does so no earlier, in length and then in edge order, than through the node and the edge at hand |
| `ScgSearch.FirstMet` | src/api.rs:1668-1672 | the first return node met ends the best of all routes to a return node |
| `ScgSearch.NothingLeft` | src/api.rs:1664-1694 | an empty queue means no route leads to a return node |
| `Crc32.TableEntry` | scripts/gen_real_kat.py:321-325 | the loop computes eight reflected steps, each a multiplication by x with the feedback polynomial of `Crc32Polynomial.PolynomialOfConstant` |
| `Crc32.BuildTable` | scripts/gen_real_kat.py:327-333 | all 256 words are stored, each as its four little-endian bytes |
| `Crc32.WordOfBytes` | scripts/gen_real_kat.py:331-341 | a word reassembled from its stored bytes is that word |
| `Crc32.Lookup` | scripts/gen_real_kat.py:339-341 | reading the table at an index gives that index after eight steps |
| `Crc32.StepsLinear` | scripts/gen_real_kat.py:321-325 | stepping is linear over exclusive or |
| `Crc32.StepsByTable` | scripts/gen_real_kat.py:338-343 | eight steps are a byte shift and one table word |
| `Crc32.SerialIsMixed` | scripts/gen_real_kat.py:338-343 | feeding bits one at a time is mixing them in and stepping |
| `Crc32.TableTurn` | scripts/gen_real_kat.py:338-343 | one turn of the message loop feeds exactly one byte, bit by bit |
| `Crc32.Run` | scripts/gen_real_kat.py:326-349 | for every message, the program writes the little-endian bytes of the bit-serial CRC-32 |
| `Crc32Polynomial.PolynomialOfConstant` | scripts/gen_real_kat.py:320 | the constant is x^26+x^23+x^22+x^16+x^12+x^11+x^10+x^8+x^7+x^5+x^4+x^2+x+1, bit 31 - k standing for x^k |
| `Crc32Polynomial.StepRegister` | scripts/gen_real_kat.py:321-325 | one bit multiplies the register by x, adds the message bit at x^32, and takes away the generator exactly if x^32 is then there |
| `Crc32Polynomial.ReferenceIsRemainder` | scripts/gen_real_kat.py:320-349 | for every message, the complement of the CRC is a remainder, with exponents below 32, of the message times x^32 with its first 32 coefficients complemented, modulo x^32+x^26+...+x+1 |
| `Crc32Polynomial.RemainderUnique` | scripts/gen_real_kat.py:320-349 | there is only one such remainder |
| `Crc32Polynomial.KnownAnswer` | scripts/gen_real_kat.py:72-75 | the CRC of "123456789" is cbf43926, written as the bytes 26 39 f4 cb |
| `Base64.CharReadsBack` | scripts/gen_real_kat.py:360-367 | the 64 characters decode to their indices and none is the padding |
| `Base64.WriteQuad` | scripts/gen_real_kat.py:375-390 | one turn writes four characters inside the buffer, padding included |
| `Base64.Run` | scripts/gen_real_kat.py:368-395 | the loop stays inside the buffer and writes exactly `((n + 2) / 3) * 4` characters of the encoding |
| `Base64.QuadReadsBack` | scripts/gen_real_kat.py:375-390 | four, three or two characters decode to the bytes they were made from |
| `Base64.DecodeEncode` | scripts/gen_real_kat.py:368-395 | decoding, which asks the bits left over to be zero, returns every message |
| `Base64.EncodeDecode` | scripts/gen_real_kat.py:368-395 | every text that decodes is the encoding of what it decodes to, so each message has exactly one text |
| `Cli.TurnStable` | src/main.rs:637-804 | a turn of the loop looks no further than the tokens it consumes |
| `Cli.ParseOfGroups` | src/main.rs:579-627 | a parse runs the settings through the flags and the other groups through the subcommand, independently |
| `Cli.AcceptedHasGroups` | src/main.rs:579-627 | every accepted vector is consumed to its last token, group by group |
| `Cli.FlagsOfSettings` | src/main.rs:637-791 | each switch is on exactly if it was set, and the last depth wins |
| `Cli.SettingsCommute` | src/main.rs:637-791 | the order of global settings matters only among depths |
| `Cli.GlobalsAnywhere` | src/main.rs:632-636 | vectors with the same subcommand groups, the same settings and the same sequence of depths parse alike, accepted or not |
| `Cli.MoveGlobal` | src/main.rs:632-636 | a complete global flag put into a legal division at either of two token boundaries, not past the file of `run`, gives the same parse |
| `Cli.RemoveGlobal` | src/main.rs:632-636 | taking a global flag out of a legal division leaves one, and the place it had can be reached |
| `Cli.MoveFlag` | src/main.rs:632-636 | in an accepted argument vector, moving any complete global flag to any other token boundary not past the file of `run` gives the same result |
| `Cli.RunArguments` | src/main.rs:902-960 | the program arguments of `run` are the tokens after the file, verbatim, and any others would have been passed on alike |
| `CliWriter.IsaNames` | src/main.rs:177-221 | exactly the sixteen names select the sixteen instruction sets |
| `CliWriter.FormatNames` | src/main.rs:465-490 | exactly the four names select the four formats |
| `CliWriter.CommandWords` | src/main.rs:808-829 | exactly the eleven words, and after `pkg` the three, select the subcommands |
| `CliWriter.ItemReads` | src/main.rs:637-804 | any flag, option or word, in any of its spellings, wherever it may stand, adds just what it says to what was said before |
| `CliWriter.CommandReads` | src/main.rs:831-1507 | an invocation with its flags and options in any order is parsed as what was said: flags are on exactly if said, of repeated options the last counts, words are kept in order, and too few or too many words are refused with their error |
| `CliWriter.RunReads` | src/main.rs:906-960 | `run` takes its options before the file and keeps every token after it |
| `CliWriter.FlagsAlone` | src/main.rs:579-627 | without a subcommand only the flags are kept |
| `CliRoundTrip.CommandReadsBack` | src/main.rs:276-437 | every command of the thirteen, with any flags, is written as literal tokens that parse to exactly that command and those flags |
| `CliRoundTrip.FlagsReadBack` | src/main.rs:579-627 | the same for flags without a command |
| `CliRoundTrip.OutcomeReadsBack` | src/main.rs:579-627 | whatever an accepted vector is parsed to can be written and comes back, so those are all the outcomes there are |
| `CliRefusals.RefusedBefore` | src/main.rs:591-790 | before a subcommand: help, version, removed flags, missing and bad values, unknown options and unknown subcommands, each with its error, whatever flags came first and whatever follows |
| `CliRefusals.RefusedInside` | src/main.rs:797-1507 | inside a subcommand: the same, with its own options and their values, and words where none is taken |
| `CliParser.ArgIter.Next` | src/main.rs:583-589 | takes the first remaining token, if there is one |
| `CliParser.ArgIter.TakeValue` | src/main.rs:797-804 | takes the next token or reports the missing value |
| `CliParser.TryConsumeGlobalFlag` | src/main.rs:637-791 | consumes exactly a complete global flag and applies its setting, or leaves everything as it was, or reports its error |
| `CliParser.ConsumeLocal` | src/main.rs:844-886 | consumes exactly one option of the subcommand, with its value, or one positional, or reports its error |
| `CliParser.Drain` | src/main.rs:914-921 | moves everything that is left into the program arguments |
| `CliParser.ParseSubcommand` | src/main.rs:806-1507 | the subcommand loops compute the meaning of the remaining tokens, which `CliWriter`, `CliRoundTrip` and `CliRefusals` pin down, and success leaves no token |
| `CliParser.ParseCliFrom` | src/main.rs:579-627 | the whole parser computes the meaning of the vector, pinned down in the same way |
| `CompactHarness.ParseOutput` | scripts/validate_compact.py:52-86 | the scanning loops compute the two scans of the text without white space, with `int` taking any Unicode decimal digit |
| `CompactHarness.DecimalDecodes` | scripts/validate_compact.py:72-85 | under any white space, the decoder recovers the outputs from the decimal stream |
| `CompactHarness.HexIsRecognised` | scripts/validate_compact.py:55-60 | a hexadecimal stream is taken for one exactly when its first vector has output |
| `CompactHarness.HexDecodes` | scripts/validate_compact.py:64-71 | from the hexadecimal stream it recovers them exactly when there is no vector or the first one has output |
| `CompactHarness.NoiseDecodes` | scripts/validate_compact.py:61-86 | characters that are neither digits nor signs are passed over one by one wherever they stand between the numbers; each byte becomes two lower-case hexadecimal digits, and a last vector without its end counts when it has output |
| `CompactHarness.StripAscii` | scripts/validate_compact.py:54 | of ASCII, exactly the white space of the interpreter is dropped |
| `CompactHarness.SignsAndPrefix` | scripts/validate_compact.py:58-81 | `int` reads a sign, and in base 16 a prefix, before the digits |
| `CompactHarness.Underscores` | scripts/validate_compact.py:58-81 | `int` ignores one underscore between digits and refuses any other |
| `HarnessBatches.BatchBounds` | scripts/gen_compact_harnesses.py:269-272 | the batches cover the vectors and none is empty |
| `HarnessBatches.SliceBatches` | scripts/gen_compact_harnesses.py:263-276 | the slices, put together again, are the vectors |
| `HarnessBatches.CompareBatch` | scripts/validate_compact.py:168-178 | counts the matches of a batch against its own range of expected outputs |
| `HarnessBatches.OnePerBatch` | scripts/validate_compact.py:197-198 | as many harnesses as vectors means one vector each |
| `HarnessBatches.BatchMatches` | scripts/validate_compact.py:168-178 | the matches of a batch are the passing vectors of its range |
| `HarnessBatches.Validator.RunHarness` | scripts/validate_compact.py:109-183 | a harness on record is not run again; any other earns one entry: its own vectors against their own expected outputs, or none passed with the flag of the failure |
| `HarnessBatches.Validator.RunModule` | scripts/validate_compact.py:185-222 | what is on record is kept, every other harness is judged, and the report is the sum of the record with the first flag that is not a pass |
| `HarnessBatches.FirstFailure` | scripts/validate_compact.py:200-222 | the status is a pass exactly when every harness passed, otherwise the flag of the first that did not |
| `HarnessBatches.EveryVectorCounted` | scripts/validate_compact.py:194-212 | whatever became of the harnesses, a complete record counts every vector exactly once |
| `HarnessBatches.FinishedCounts` | scripts/validate_compact.py:157-212 | when all harnesses finished, those that pass are exactly the vectors whose output is the expected one, and the status is a pass exactly when all are |
| `Sweep.Results.CountDone` | scripts/supervisor.py:34-39 | the lines but one, or zero without a file |
| `Sweep.Results.Open` | scripts/run_one_batch.py:151-155 | a new file gets a header, if the process lives to write it; an old one is left alone |
| `Sweep.Results.WriteLine` | scripts/run_one_batch.py:158-169 | a line is appended whole, in part, or not at all, as far as the process lives; it continues an unfinished one |
| `Sweep.WriteAllClosed` | scripts/run_one_batch.py:151-171 | a file that ends in a line feed grows by the whole lines written, and by a torn one if the process died inside it |
| `Sweep.Results.RunOneBatch` | scripts/run_one_batch.py:137-171 | the file grows by what the process writes of header and rows of the slice before it dies, Python's negative indices included; no other file changes |
| `Sweep.Results.Resume` | scripts/run_backend_resilient.py:126-168 | the file grows by what the process writes of the rows from the resume point; no other file changes |
| `Sweep.Results.Round` | scripts/supervisor.py:42-77 | each chosen backend's file becomes that of its own batch, whatever the others do, and the rest stay |
| `Sweep.EventKeepsGood` | scripts/run_one_batch.py:146-171 | one round or resume, cut off anywhere, keeps the file a header and a gapless prefix, exactly unless it ends inside a line or dies before a new header |
| `Sweep.SweepGoodExactly` | scripts/supervisor.py:34-77 | over any run of rounds and resumes, the file is the header and one row per source of a prefix of the list exactly when the first process wrote the header and none left it ending inside a line |
| `Sweep.TornRowCounted` | scripts/supervisor.py:34-39 | a torn row counts as done |
| `Sweep.RoundProgress` | scripts/supervisor.py:55-64 | what is left never grows, and an uninterrupted round takes its whole chunk off it, or all of it |
| `Sweep.RoundsFinish` | scripts/supervisor.py:49-77 | after n uninterrupted rounds n chunks are gone or nothing is left |
| `Sweep.ResumeFinishes` | scripts/run_backend_resilient.py:126-168 | one uninterrupted resume completes a good file |
| `Sweep.EmptyFileStalls` | scripts/supervisor.py:34-39 | an empty file counts as -1, and with a chunk no longer than the list no round ever writes to it |
| `Sweep.EmptyFileRunsLast` | scripts/run_one_batch.py:146-149 | with a longer chunk the next batch runs only the last source |
| `WasmHeap.Runner.EnsureMemSize` | scripts/wasm32_runner.py:665-685 | grows the memory by exactly the missing pages, within the module's maximum, or leaves it and reports failure |
| `WasmHeap.Runner.VumaMmap` | scripts/wasm32_runner.py:988-1006 | takes exactly the step of the allocator, and the word at address 0 holds the result, if the instance exposes a memory |
| `WasmHeap.Runner.VumaMunmap` | scripts/wasm32_runner.py:1008-1012 | returns 0 and changes nothing but the result word, and that only if the instance exposes a memory |
| `WasmHeap.Runner.VumaMremap` | scripts/wasm32_runner.py:1025-1040 | takes exactly the step of the allocator, and the word at address 0 holds the result, if the instance exposes a memory |
| `WasmHeap.StepSound` | scripts/wasm32_runner.py:988-1040 | every request and outside growth keeps the regions end to end, from the base to the bump pointer, inside memory |
| `WasmHeap.RunSound` | scripts/wasm32_runner.py:658-1040 | so every run does |
| `WasmHeap.RunSafety` | scripts/wasm32_runner.py:658-1040 | over every run, all regions ever returned are page aligned, at or above 1 MiB, inside memory, long enough, pairwise disjoint, positive as `i32`, and clear of the result word |
| `WasmHeap.RefusalExact` | scripts/wasm32_runner.py:988-1006 | a request is refused for exactly the listed reasons and then nothing moves |
| `WasmHeap.GrantExact` | scripts/wasm32_runner.py:665-1040 | a granted request returns the old bump pointer, moves it by the least multiple of 64 KiB that is long enough, and grows the memory by exactly the missing pages |
| `WasmHeap.FirstRegion` | scripts/wasm32_runner.py:658-664 | the first region of every run starts at 1 MiB |
| `WasmHeap.AnonymousBit` | scripts/wasm32_runner.py:988-1006 | the flag test looks at the bit worth 32, whatever the others are |
| `WasmHeap.OtherCalls` | scripts/wasm32_runner.py:1008-1012 | unmapping returns 0 and frees nothing |
| `HmacDrbg.Drbg.Update` | scripts/scrypt_fix/hmac_drbg_ref.py:14-20 | K is the HMAC of V, 0 and the data, V the HMAC of V, and with data once more with 1; the counter stays |
| `HmacDrbg.Drbg.Instantiate` | scripts/scrypt_fix/hmac_drbg_ref.py:22-27 | the new state depends on the seed material only, with the counter at one |
| `HmacDrbg.Drbg.Reseed` | scripts/scrypt_fix/hmac_drbg_ref.py:29-31 | the state is updated with the entropy and the counter is one |
| `HmacDrbg.Drbg.Generate` | scripts/scrypt_fix/hmac_drbg_ref.py:33-44 | the loop computes the answer and the next state of the specification, refusal included |
| `HmacDrbg.OutputAt` | scripts/scrypt_fix/hmac_drbg_ref.py:38-41 | byte i of the output is byte i mod 32 of V turned i / 32 + 1 times |
| `HmacDrbg.AnswerBytes` | scripts/scrypt_fix/hmac_drbg_ref.py:33-44 | an answer has exactly the requested number of bytes, none for a request of zero or less; byte i is byte i mod 32 of V chained i / 32 + 1 times |
| `HmacDrbg.StateAfterRequest` | scripts/scrypt_fix/hmac_drbg_ref.py:33-44 | an answered request leaves V chained once for every 32 bytes begun, updated with the additional input, and one more on the counter |
| `HmacDrbg.SeededFrom` | scripts/scrypt_fix/hmac_drbg_ref.py:9-27 | instantiation starts from 32 zero bytes and 32 one bytes |
| `HmacDrbg.ShorterIsPrefix` | scripts/scrypt_fix/hmac_drbg_ref.py:38-44 | from equal states and equal additional input, a shorter request gets a prefix of a longer one's answer |
| `HmacDrbg.SameBlocksSameState` | scripts/scrypt_fix/hmac_drbg_ref.py:38-44 | requests that need the same number of blocks leave equal states |
| `HmacDrbg.CounterInRun` | scripts/scrypt_fix/hmac_drbg_ref.py:8-44 | over every run the counter after seeding is one plus the requests answered since, which are all of them up to 2^32 |
| `HmacDrbg.RefusalInRun` | scripts/scrypt_fix/hmac_drbg_ref.py:33-35 | a request is refused exactly when that limit is used up, and then changes nothing |
| `HmacDrbg.InstantiateForgets` | scripts/scrypt_fix/hmac_drbg_ref.py:22-27 | after an instantiation no earlier history can be told apart |

## Left out

- The compiler proper (register allocation, instruction selection, the IVE, parser crate, pipeline) and the Lean proofs: not among the sources modelled here.
- `from_parse_error`, `from_codegen_error`, rendering of diagnostics, `DiagnosticSummary` and the builder methods: mappings and counters with one-line claims.
- `cmd_*` handlers, benchmarks, `ffi`, `logging`, `telemetry`, `llm_api`, build scripts: plumbing around files, processes and the compiler.
- Wall-clock reads in `src/time.rs` and the millisecond formatter, which differs from the modelled one by three digits.
- SHA-1, SHA-256, MD5 and ChaCha20 templates of `gen_real_kat.py`: single-block padding, and a placeholder cipher.
- Socket, file, fork, exec, stat and thread calls of `wasm32_runner.py`, and the data in linear memory: only the allocator's own state is modelled. Whether the engine grants a growth within the module's maximum is a parameter of each call.
- Wording of error messages: parse errors of JSON and of the command line are kinds, with their positions or arguments.
- `to_json_value` of diagnostics pushes optional entries to a local vector; the model concatenates them.
- CliParser.ParseSubcommand: the fourteen subcommand loops, which differ only in the options and positionals they take, are one loop with a table of options.
- Payload, edge and control kinds of the graph that the two searches never look at are folded into one kind each; the rest of `build_scg_summary` is left out.
- CivilTime.CivilFromDays: integers are unbounded; `NoOverflow` shows the bounds for every `i64` number of seconds, while the function called with days near the limits of `i64` could overflow.
- The interpreter's table of decimal digits outside ASCII is a parameter of the decoder; nothing a harness prints depends on it.
- HarnessBatches.Validator.RunModule: finding the harness files and sorting them by batch number is left out, as is deciding whether a binary is recent enough to skip compiling; what became of each harness is a parameter, and its count of delimiters stands for its text, so descriptions that contain the delimiter call are not modelled.
- Sweep.SweepGoodExactly: what is inside a torn line is not modelled, nor that the operating system may let later text reach the disk before earlier. A process that dies before it opens the file changes nothing and is not an event.
- The verdict a source gets from compiling and running it is a parameter of each round.
- HMAC-SHA-256 is any function with a 32-byte result.
