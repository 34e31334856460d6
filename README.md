# jsonformat: the data core of a browser toolbox, in Dafny

jsonformat is a set of browser tools written in plain JavaScript. Four of its
scripts hold real logic, and this project models them:

- `js/diff.js`: a line-based code diff. It builds an LCS (longest common
  subsequence) table and walks back through it to list `equal`, `added` and
  `removed` operations. It then groups those into blocks, turns a removed block
  followed by an added block of the same length into one changed block, and
  renders two numbered columns with counters.
- `js/money.js`: writes an amount in Chinese financial numerals (大写金额),
  digit group by digit group, then cleans up the 零s with four regular
  expressions. It also models the handler that filters what is typed into the
  amount field.
- `js/convert.js`: converts JSON into other forms.
  - Name converters.
  - Type-name mappers for Java, Go, C# and Rust.
  - `parseJsonToClasses`, which collects a class per nested object under a
    shared table of claimed names.
  - The Java, Go, Ruby, C# and Rust code generators, which share a set of
    classes already generated.
  - `jsonToXml` with `escapeXml`.
  - `jsonToYaml` with `formatYamlValue`.
- `js/crypto.js`: hand-written MD5 and SHA-256 over `utf8Encode`d text,
  written in 32-bit two's-complement JavaScript arithmetic. Also the so-called
  AES tool, which is a repeating-key exclusive-or.

## How the model is built

The model follows the form of the JavaScript.

**Loops become methods.** Every loop the scripts run is a Dafny `method` with a
`while`/`for` loop and its invariants. Examples:
- the LCS table fill (on an `array2`);
- the diff walk;
- the grouping and promotion passes;
- `renderDiff`;
- `convertGroup`;
- the field loops of the generators;
- the block and round loops of MD5 and SHA-256 (on `array`s, as the source's
  `HASH` and `W`);
- `wordToHex`, `binb2hex`, `convertToWordArray`, `str2binb`, `utf8Encode` and
  the XOR loop.

Each method is proved to compute a specification function. The properties the
tools promise are then proved about those functions as lemmas.

**Shared mutable objects become classes.**
- `Classes.Registry` holds the `generatedClasses` table that `parseJsonToClasses`
  threads through its recursion.
- `Codegen.Generator` holds the `generated` set that the generators share.

Both are classes whose fields the methods update in place.

**Word arithmetic.** 32-bit words are `bv32`. JavaScript's signed `>>` is
modelled as an arithmetic shift (`CryptoBits.Sar16`). `safe_add`/`addUnsigned`
are proved to be wrap-around addition. `rotateLeft` and `S` are proved to be
true rotations. Strings in the hash and cipher code are
sequences of UTF-16 code units (`bv16`), as JavaScript's `charCodeAt` sees them.

**JSON values** are the `Json.Json` datatype. An object keeps its members in the
order `Object.entries` visits them.

Two modules are shared helpers: `Text` (white space, ASCII case, split and join
on one character, decimal strings) and `Sequences` (flattening).

Where the tools' stated intent and the code disagree, the model follows the
code. Examples:
- the amount filter lets more than two decimals through;
- the YAML writer does not escape backslashes or line breaks.

Both are listed under Findings.

## Model

| member | source | states |
|---|---|---|
| DiffLcs.Keys | js/diff.js:264-265 | there is one comparison key per line, and with both options off the keys are the lines themselves |
| DiffLcs.KeysIdempotent | js/diff.js:149-157 | keying the keys again gives the same keys |
| DiffLcs.NormalizeOff | js/diff.js:149-157 | with both options off a line is its own key |
| DiffLcs.NormalizeWhitespaceClean | js/diff.js:150-152 | ignoring white space leaves a key with single spaces only, none at either end |
| DiffLcs.NormalizeIdempotent | js/diff.js:149-157 | normalising a key again changes nothing |
| DiffLcs.Lcs | js/diff.js:86-102 | the table is a new array with one row more than `lines1` has lines and one column more than `lines2` has, and every cell holds the LCS recurrence's value for those prefixes |
| DiffLcs.TableBounds | js/diff.js:86-102 | no table entry exceeds either prefix length |
| DiffLcs.TableMonotone | js/diff.js:91-99 | the table never decreases along a row or a column |
| DiffLcs.LcsUpperBound | js/diff.js:86-102 | no common subsequence of two prefixes is longer than their table entry |
| DiffLcs.LongestCommon | js/diff.js:86-102 | some common subsequence of the prefixes is as long as the table entry |
| DiffLcs.Choice | js/diff.js:276-286 | the walk steps diagonally exactly when both keys exist and are equal; it moves to an `added` op only while modified lines remain and to a `removed` op only while original lines remain |
| DiffLcs.DiffWalk | js/diff.js:271-305 | the prepend loop over `(i, j)` down to `(0, 0)` yields the walk specification |
| DiffLcs.GenerateDiff | js/diff.js:105-125 | `generateDiff` is the same walk with the raw lines as their own keys |
| DiffLcs.WalkShape | js/diff.js:276-304 | every op carries the fields its kind prescribes (texts, 1-based line numbers, 0 for the absent side) |
| DiffLcs.WalkOriginalNumbers | js/diff.js:275-305 | the original line numbers of the ops are exactly 1..i, in order |
| DiffLcs.WalkModifiedNumbers | js/diff.js:275-305 | the modified line numbers of the ops are exactly 1..j, in order |
| DiffLcs.WalkOriginalTexts | js/diff.js:275-305 | the original texts of the ops, in order, are the original document's lines |
| DiffLcs.WalkModifiedTexts | js/diff.js:275-305 | the modified texts of the ops, in order, are the modified document's lines |
| DiffLcs.WalkEqualCount | js/diff.js:275-305 | the walk emits as many `equal` ops as the table entry says |
| DiffLcs.WalkCommonSubseq | js/diff.js:276-285 | the keys of the `equal` ops are a common subsequence of both key prefixes |
| DiffLcs.WalkIsLcs | js/diff.js:268-305 | no common subsequence of the two documents is longer than the walk's `equal` ops: the diff is a longest one |
| DiffLcs.WalkSameKeys | js/diff.js:275-305 | documents with equal keys line for line walk as `equal` ops pairing line k with line k |
| DiffLcs.WalkTie | js/diff.js:286 | on a tie between the two single-line moves the walk emits `added`; otherwise it follows the larger entry |
| DiffBlocks.OptimizeDiff | js/diff.js:128-146 | the grouping loop with its open `currentBlock` yields `Grouped` |
| DiffBlocks.FlattenGrouped | js/diff.js:128-146 | the blocks' items, in order, are the ops: nothing lost, nothing reordered |
| DiffBlocks.GroupedWellGrouped | js/diff.js:133-141 | every block is non-empty, has one kind for all its items, and no two neighbours share a kind |
| DiffBlocks.GroupedUnique | js/diff.js:128-146 | the grouping is the only well-grouped block list with those items |
| DiffBlocks.MergeItems | js/diff.js:319-324 | each item of the removed run takes the modified text and line of the added item at its index |
| DiffBlocks.Paired | js/diff.js:319-324 | pairing keeps the removed run's length |
| DiffBlocks.PromoteChanged | js/diff.js:310-330 | the promotion loop that skips the partner block yields `Promoted` |
| DiffBlocks.PromotedHead | js/diff.js:311-329 | the first block after promotion is the first block or the changed block replacing it |
| DiffBlocks.PromotedNoPairs | js/diff.js:315-316 | after promotion no removed block stands right before an added block of the same length |
| DiffBlocks.PromotedViews | js/diff.js:310-330 | promotion keeps what each column shows and the number of unchanged lines |
| DiffBlocks.ChangedViews | js/diff.js:318-324 | a changed block shows on the left what the removed block showed and on the right what the added block showed |
| DiffBlocks.RenderItem | js/diff.js:170-189 | one item's two rows and how each counter moves, by block kind |
| DiffBlocks.RenderDiff | js/diff.js:160-191 | the nested loops with two counters from 1 yield the two columns and the counters of the tagged items |
| DiffBlocks.LeftRowsShow | js/diff.js:173-189 | the left column has one row per item and shows exactly the left texts, in order |
| DiffBlocks.LeftRowsNumbered | js/diff.js:163-189 | the left column numbers its lines 1, 2, ... in order |
| DiffBlocks.RightRowsShow | js/diff.js:173-189 | the right column has one row per item and shows exactly the right texts, in order |
| DiffBlocks.RightRowsNumbered | js/diff.js:164-189 | the right column numbers its lines 1, 2, ... in order |
| DiffBlocks.StatsCount | js/diff.js:166-189 | the four counters sum to the number of items; the left column has removed+changed+unchanged numbered lines, the right added+changed+unchanged |
| DiffBlocks.TaggedGrouped | js/diff.js:128-146 | in the grouping every item sits in a block of its own kind |
| DiffBlocks.SideOf | js/diff.js:256-265 | a document is split on '\n' and keyed by the normaliser |
| DiffBlocks.CompareShows | js/diff.js:246-334 | the two columns show exactly the two documents' lines, both numbered 1..n, and are equally long; the unchanged counter is the LCS length; removed+changed+unchanged and added+changed+unchanged are the two line counts |
| DiffBlocks.Compare | js/diff.js:246-334 | the handler refuses exactly when both texts are empty, and otherwise shows the screen `CompareShows` describes |
| DiffBlocks.SameKeysOneBlock | js/diff.js:246-334 | documents with the same keys line for line compare as a single unchanged block pairing line k with line k |
| DiffBlocks.AllEqualOneBlock | js/diff.js:128-146 | a non-empty run of `equal` ops is one block, which promotion leaves alone |
| Money.Numeral | js/money.js:2 | `chineseNumbers[d]` is 零 exactly for 0 and is never 元, 万 or 亿 |
| Money.Unit | js/money.js:3 | a place unit is at most one character and never 零 |
| Money.Pad | js/money.js:118 | `padStart(4, '0')` keeps the group as the suffix of four digits, zeros before it |
| Money.ConvertGroup | js/money.js:109-145 | the loop with its `needZero` flag yields `GroupWords` |
| Money.GroupWordsEmpty | js/money.js:109-145 | a group converts to '' exactly when all its digits are zero |
| Money.GroupTextTidy | js/money.js:120-142 | a group's words never start or end with 零 and never hold two 零 in a row |
| Money.GroupTextTerms | js/money.js:124-133 | apart from 零, the words are the numeral and unit of each non-zero digit, in order |
| Money.GroupTextZero | js/money.js:124-140 | a 零 is written exactly when zeros stand between two non-zero digits |
| Money.Groups | js/money.js:48-52 | the groups have one to four digits, all but the first exactly four |
| Money.GroupsConcat | js/money.js:48-52 | the groups put back together are the integer digits |
| Money.SplitGroups | js/money.js:48-52 | the `unshift` loop yields `Groups` |
| Money.BigUnit | js/money.js:62-65 | the big unit appended is '', 万 or 亿 |
| Money.AppendGroup | js/money.js:55-70 | one pass: the group's words with their big unit, or 零 for an empty middle group |
| Money.IntegerPartWords | js/money.js:39-73 | the integer part gives 零 for '0', else the assembled groups and 元 |
| Money.DecimalPartWords | js/money.js:75-91 | 整 for '00', else the 角 and 分 words |
| Money.ChineseMoney | js/money.js:11-102 | NaN, negative and too-large amounts fail with their own errors, exactly; zero is 零元整; everything else succeeds |
| Money.ConvertToChineseMoney | js/money.js:11-102 | the function computes `ChineseMoney` |
| Money.CollapseZerosSingle | js/money.js:94 | after `/零+/g` no two 零 stand together |
| Money.DropZeroBeforeClears | js/money.js:96-97 | dropping 零 before a unit character leaves no 零 in front of it |
| Money.RewrittenCleaned | js/money.js:94-97 | the first three rewrites already leave no 零 before 零, 元, 万 or 亿 |
| Money.CleanupCleaned | js/money.js:94-99 | the whole clean-up leaves none of those pairs, and its last rewrite never changes anything |
| Money.CleanupAppend | js/money.js:94-99 | text without 零 that starts with none of 元, 万, 亿 passes through the clean-up untouched |
| Money.MoneyCleaned | js/money.js:11-102 | the words of any accepted non-zero amount never put 零 before 零, 元, 万 or 亿 |
| Money.DecimalWordsCases | js/money.js:75-91 | the 角/分 words by the two digits: 整 for 00, 角 then 整 for a zero 分, 分 alone for a zero 角 |
| Money.MoneyDecimals | js/money.js:93-101 | the clean-up never touches the 角/分 words: the result is the cleaned integer words followed by them |
| Money.MoneyBelowOneYuan | js/money.js:41-42 | below one yuan the words are a lone 零 and the 角/分 words, with no 元 |
| MoneyInput.KeepNumeric | js/money.js:243 | the filter leaves only digits and dots |
| MoneyInput.KeepNumericCounts | js/money.js:243 | every digit and dot is kept as often as it occurs, and nothing else |
| MoneyInput.KeepNumericIdle | js/money.js:243 | text made only of digits and dots passes unchanged |
| MoneyInput.Sanitized | js/money.js:243-252 | the field ends up holding only digits and at most one dot |
| MoneyInput.SanitizeInput | js/money.js:240-254 | the handler writes `Sanitized` of the typed value back into the field |
| MoneyInput.SanitizedDecimals | js/money.js:249-252 | an input with at most one dot ends with at most two decimals |
| MoneyInput.SanitizedWhole | js/money.js:243-252 | a dot-free input keeps all its digits, in order |
| MoneyInput.SanitizedManyDots | js/money.js:245-252 | "1.2.345" becomes "1.2345", four decimals, and only a second pass cuts it to "1.23" |
| MoneyInput.SanitizedManyDotsKeepsDigits | js/money.js:243-252 | whenever the filtered value holds two dots or more, the handler keeps every digit of the input, each as often as it occurs |
| MoneyInput.IntendedDecimals | js/money.js:249-252 | with the cut made on the merged value, the field never holds more than two decimals |
| MoneyInput.IntendedAgrees | js/money.js:243-252 | the corrected filter agrees with the written one on inputs with at most one dot |
| MoneyInput.IntendedIdempotent | js/money.js:243-252 | the corrected filter is idempotent |
| Naming.RaiseAfterUnderscores | js/convert.js:5 | the `_x` scan never lengthens the name, keeps it non-empty exactly when it was, and starts it with the raised letter of a leading `_x` |
| Naming.RaiseFirst | js/convert.js:6 | only the first character changes, to its upper case |
| Naming.CamelCaseShape | js/convert.js:4-7 | a camel-case name has no `_` before a lower-case letter and does not start with a lower-case letter |
| Naming.CamelCaseIdempotent | js/convert.js:4-7 | converting to camel case twice is converting once |
| Naming.CamelCaseLength | js/convert.js:5 | each rewrite of `_x` shortens the name by one |
| Naming.ToPascalCase | js/convert.js:10-13 | Pascal case is exactly camel case: `toCamelCase` already raises the first letter, so the second upper-casing changes nothing |
| Naming.SnakeCaseLower | js/convert.js:16-18 | a snake-case name has no capital letter |
| Naming.SnakeCaseLength | js/convert.js:17 | each capital adds an underscore, except a leading one that is dropped |
| Naming.SnakeThenCamel | js/convert.js:4-18 | for a name without `_`, snake case then camel case gives the name with its first letter raised |
| TypeNames.TypeForNested | js/convert.js:21-118 | all four mappers are one list wrapper per level of first elements around the scalar name |
| TypeNames.TypeForWraps | js/convert.js:35-40 | a non-empty array's type wraps its first element's type in the list type |
| TypeNames.TypeForScalar | js/convert.js:29-42 | any other value gets the table's name for its kind |
| TypeNames.ArrayFlagAgrees | js/convert.js:22-27 | with `isArray` set, an array gets the same type as without it |
| TypeNames.StringAsList | js/convert.js:22-27 | with `isArray` set, a non-empty string is a list of strings, since `value[0]` is its first character |
| Json.Entries | js/convert.js:125 | `Object.entries` fails exactly on `null` |
| Classes.Registry.ParseJsonToClasses | js/convert.js:121-157 | the method computes `ParseClasses` and leaves the shared table holding the names it claimed |
| Classes.Registry.ParseEntry | js/convert.js:125-153 | one entry: its field, after the nested parse when the class name is still free, or the error that parse throws |
| Classes.ErrorStays | js/convert.js:125-154 | after a nested parse throws, later entries keep the error and claim no name |
| Classes.ParsedFields | js/convert.js:125-156 | a successful parse returns its class name and exactly one field per entry, in entry order |
| Classes.ParseFresh | js/convert.js:134-149 | nested classes are parsed only under names not yet claimed; each name is claimed once, together with its class |
| Classes.ParsedTypesClaimed | js/convert.js:133-150 | every class name a field refers to is claimed |
| Classes.ParseScalars | js/convert.js:121-125 | `null` throws; a boolean or number makes an empty class |
| Classes.NullFirstElementThrows | js/convert.js:141-146 | an array whose first element is `null` sends `null` to the nested parse, which throws |
| Codegen.FieldTypeOfEntry | js/convert.js:140-152 | the type written for an entry's field, by the kind of the entry's value |
| Codegen.AppendLines | js/convert.js:197-202 | a field loop writes each field's line, in order |
| Codegen.JavaDecls | js/convert.js:197-202 | the first Java field loop writes one declaration per field, in order |
| Codegen.WriteJavaClass | js/convert.js:194-222 | the class text: header, declarations, accessor pairs, closing brace |
| Codegen.GolangFields | js/convert.js:268-274 | one struct field with its JSON tag per field, in order |
| Codegen.WriteGolangStruct | js/convert.js:266-276 | the struct text |
| Codegen.WriteRubyClass | js/convert.js:319-340 | the class text with `attr_accessor`, `initialize` and `to_json` |
| Codegen.WriteCSharpClass | js/convert.js:395-407 | the class text, indented by `indent` |
| Codegen.RustFields | js/convert.js:453-460 | one serde-renamed field per field, in order |
| Codegen.WriteRustStruct | js/convert.js:450-462 | the struct text |
| Codegen.Generator.GenerateJavaClass | js/convert.js:188-235 | the code and the new shared set are those of `Generate` for Java |
| Codegen.Generator.GenerateJavaNested | js/convert.js:225-232 | the nested loop writes and claims what `NestedClaims` says |
| Codegen.Generator.GenerateGolangStruct | js/convert.js:260-289 | the same for Go |
| Codegen.Generator.GenerateGolangNested | js/convert.js:279-286 | the nested loop for Go |
| Codegen.Generator.GenerateRubyClass | js/convert.js:313-353 | the same for Ruby |
| Codegen.Generator.GenerateRubyNested | js/convert.js:343-350 | the nested loop for Ruby |
| Codegen.Generator.GenerateCSharpClass | js/convert.js:389-420 | the same for C#, with its indent passed down |
| Codegen.Generator.GenerateCSharpNested | js/convert.js:410-417 | the nested loop for C# |
| Codegen.Generator.GenerateRustStruct | js/convert.js:444-475 | the same for Rust |
| Codegen.Generator.GenerateRustNested | js/convert.js:465-472 | the nested loop for Rust |
| Codegen.GenerateAlone | js/convert.js:188-222 | a call with no nested classes writes its own block, unless that name was generated before |
| Codegen.GenerateOnce | js/convert.js:189-192 | a call writes each class at most once: the classes written have distinct names not generated before, exactly their names are added, the code is their blocks in order, and it is empty exactly when the call's own class was generated before |
| Codegen.GenerateTwice | js/convert.js:188-235 | calling a generator again on the same shared set writes nothing and claims nothing more |
| Codegen.NestedGenerated | js/convert.js:225-232 | the nested loop claims exactly the non-empty names it meets |
| Codegen.NestedFresh | js/convert.js:225-232 | the classes the loop writes have distinct names not generated before |
| Codegen.NestedWritesAll | js/convert.js:225-232 | with distinct names, the loop writes every class whose name is non-empty and not taken |
| Codegen.ConversionWrites | js/convert.js:172-180 | a conversion writes the root class, then every nested class in parse order, except empty names and one named like the root |
| Codegen.ParsedDistinct | js/convert.js:134-149 | the nested classes of a parse from an empty table have distinct names |
| Codegen.EachPrefix | js/convert.js:197-202 | field `k`'s line comes right after the lines of the fields before it |
| Xml.EscapeXmlOnePass | js/convert.js:521-527 | because '&' goes first, the five passes escape each character exactly once |
| Xml.EscapeXmlClean | js/convert.js:521-527 | the escaped text holds no '<', '>', '"' or "'" |
| Xml.EscapeXmlWell | js/convert.js:521-527 | every '&' left starts one of the five entities |
| Xml.UnescapeEscape | js/convert.js:521-527 | unescaping the escaped text gives the text back |
| Xml.JsonToXml | js/convert.js:496-519 | the two loops compute `Element` |
| Xml.ItemsToXml | js/convert.js:505-511 | the item loop computes `Items` |
| Xml.BodyStays | js/convert.js:499-516 | once an entry throws, the entries loop ends with that error |
| Xml.ItemsStay | js/convert.js:505-511 | once an item throws, the item loop ends with that error |
| Xml.ElementSucceeds | js/convert.js:496-519 | the conversion succeeds exactly when it never calls `Object.entries(null)` |
| Xml.NullItemThrows | js/convert.js:505-507 | an array entry holding `null` makes the conversion throw |
| Xml.NullEntryWritten | js/convert.js:500-501 | a `null` entry is an empty element and never throws |
| Xml.ScalarRoot | js/convert.js:496-519 | a boolean or number root writes only its opening and closing tags |
| Xml.ElementFramed | js/convert.js:497-518 | a successful conversion starts with the root's opening tag and ends with its closing tag |
| Xml.TextElementContent | js/convert.js:509-513 | a text element holds its text escaped: no markup, and unescaping reads it back |
| Yaml.UnescapeEscapeQuotes | js/convert.js:588 | removing the backslashes before quotes gives the string back |
| Yaml.FormatYamlValueShape | js/convert.js:585-593 | quoted strings are wrapped in double quotes and read back by dropping the quote escapes; other strings are kept; other values are `String(value)` |
| Yaml.QuotedAsIs | js/convert.js:587-588 | a string needing quotes with no double quote in it is written between quotes unchanged |
| Yaml.BackslashMisread | js/convert.js:587-588 | `C:\new` is quoted with its backslash bare, and YAML reads `\n` there as a line break |
| Yaml.LineBreakFolded | js/convert.js:587-588 | a line break is quoted but written bare, and YAML folds it into a space |
| Yaml.FormatEscapedReadsBack | js/convert.js:585-593 | with backslashes, quotes and line breaks escaped, every quoted string reads back as itself |
| Yaml.Indentation | js/convert.js:547 | `'  '.repeat(indent)` is 2·indent spaces |
| Yaml.JsonToYaml | js/convert.js:546-583 | the loops compute `YamlOf` |
| Yaml.SequenceToYaml | js/convert.js:551-565 | the item loop computes `Sequence` |
| Yaml.ReindentItem | js/convert.js:553-561 | the item's first line after `- `, then its other non-blank lines two spaces deeper |
| Yaml.MappingStays | js/convert.js:567-581 | once an entry throws, the entries loop ends with that error |
| Yaml.SequenceStays | js/convert.js:551-565 | once an item throws, the item loop ends with that error |
| Yaml.YamlSucceeds | js/convert.js:546-583 | the conversion succeeds exactly when it never calls `Object.entries(null)` |
| Yaml.NullItemThrows | js/convert.js:552-554 | a `null` array item throws, since `typeof null` is `'object'` |
| Yaml.NullEntryWritten | js/convert.js:568-569 | a `null` entry is `key: null` and never throws |
| Yaml.NestedArrayFlat | js/convert.js:552-564 | an array inside an array is one item, written as `String(value)` |
| Yaml.EmptyYaml | js/convert.js:546-583 | a boolean, a number, or an empty array or object writes nothing |
| CryptoBits.Sar16 | js/crypto.js:77 | `x >> 16` moves the top half down and fills with the sign |
| CryptoBits.AddUnsignedWraps | js/crypto.js:75-79 | adding in 16-bit halves is 32-bit wrap-around addition |
| CryptoBits.RotateLeftIsRotation | js/crypto.js:71-73 | `rotateLeft` is the 32-bit left rotation for every shift it is given |
| CryptoBits.RotateRightIsRotation | js/crypto.js:274 | `S` is the 32-bit right rotation |
| CryptoBits.ShiftRight | js/crypto.js:275 | `R` is a zero-filling shift: its top n bits are clear |
| CryptoBits.ChooseAgrees | js/crypto.js:81 | MD5's `F` and SHA-256's `Ch` are the same function |
| CryptoBits.ChooseSelects | js/crypto.js:81 | with x all ones `F` gives y, with x zero it gives z, and with y equal to z it gives y |
| CryptoBits.GSelectsByZ | js/crypto.js:82 | `G` is `F` with z as the selector |
| CryptoBits.MajorityVote | js/crypto.js:277 | `Maj` is the bitwise majority: symmetric, and any two equal arguments win |
| Md5.FFIsRotatedSum | js/crypto.js:86-89 | `FF` is `((a + F + x + ac) <<< s) + b` in 32-bit arithmetic |
| Md5.GGIsRotatedSum | js/crypto.js:91-94 | the same for `GG` |
| Md5.HHIsRotatedSum | js/crypto.js:96-99 | the same for `HH` |
| Md5.IIIsRotatedSum | js/crypto.js:101-104 | the same for `II` |
| Md5.PaddedDigest | js/crypto.js:159-234 | the block loop on any array that reads as the padded message gives that message's digest |
| Md5.StateHex | js/crypto.js:236 | the four `wordToHex` results, lower-cased, are the hex of the state's 16 bytes |
| Md5.MD5 | js/crypto.js:70-237 | `MD5` returns 32 lower-case hex digits, the digest of the padded UTF-8-style encoding of the text (each surrogate of a pair encoded on its own, as `utf8Encode` does) |
| Utf8.Utf8Encode | js/crypto.js:114-131 | the rewrite then the unit loop yields `Utf8Of` |
| Utf8.EncodeUnit | js/crypto.js:119-129 | one, two or three units by the range of the code unit |
| Utf8.EncodedShape | js/crypto.js:117-130 | every output unit is a byte, and each input unit contributes its width |
| Utf8.DecodeEncoded | js/crypto.js:117-130 | the encoding loses nothing: every code unit, surrogates included, decodes back |
| Utf8.ReplaceCrlfCounts | js/crypto.js:115 | the rewrite drops exactly one CR per CRLF pair, and keeps every line feed |
| Utf8.OnePass | js/crypto.js:115 | a single pass: `\r\r\n` becomes `\r\n` |
| Packing.ConvertToWordArray | js/crypto.js:106-112 | the loop packs byte n into lane n%4 of word n/4 (little-endian) |
| Packing.Str2Binb | js/crypto.js:353-360 | the loop packs byte n into lane 3-n%4 of word n/4 (big-endian) |
| Packing.PackLane | js/crypto.js:109-110 | packing four bytes into a word and reading lane j back gives byte j |
| Packing.HexOfBytesShape | js/crypto.js:133-140 | the hex of n bytes is 2n lower-case hex digits |
| Packing.LittleEndianBytes | js/crypto.js:106-112 | reading the words lowest lane first gives the bytes back, zero-padded |
| Packing.BigEndianBytes | js/crypto.js:353-360 | reading the words highest lane first gives the bytes back, zero-padded |
| Packing.WordToHex | js/crypto.js:133-140 | eight lower-case hex digits, the word's bytes lowest first |
| Packing.Binb2Hex | js/crypto.js:381-389 | two lower-case hex digits per byte, highest lane first, although `>>` fills with the sign |
| Packing.NibblesOfLane | js/crypto.js:385-386 | the `& 0xF` mask drops the sign fill, so each digit is a nibble of the lane's byte |
| Packing.BigEndianHex | js/crypto.js:391-392 | `binb2hex` after `str2binb` writes the hex of the bytes, zero-padded |
| Padding.Md5Pad | js/crypto.js:151-152 | the marker and length stores make the padded MD5 message, a whole number of blocks |
| Padding.Sha256Pad | js/crypto.js:312-313 | the same for SHA-256 |
| Padding.StoreAt | js/crypto.js:152 | a store changes the slot it writes and no other; slots past the old end read as 0 |
| Padding.LengthShifts | js/crypto.js:151-152 | `len >> 5`, `len % 32` and `(len + 64) >>> 9` in terms of the byte count |
| Padding.ChainLoop | js/crypto.js:159-234 | the block loop compresses each started block in turn |
| Sha256.CoreSha256 | js/crypto.js:283-351 | `core_sha256` returns the chaining value of the padded message |
| Sha256.BlockLoop | js/crypto.js:315-349 | every started block of `m` is compressed into `HASH` in turn |
| Sha256.CompressBlock | js/crypto.js:316-348 | one block: load, 64 rounds, add back |
| Sha256.RoundLoop | js/crypto.js:325-339 | the inner loop builds the schedule and runs the 64 rounds |
| Sha256.ScheduleWord | js/crypto.js:326-327 | `W[j]` is the block word, or the expansion of earlier words |
| Sha256.SchedulePrefix | js/crypto.js:325-327 | a shorter schedule is a prefix of a longer one |
| Sha256.RoundStep | js/crypto.js:328-338 | `T1`, `T2`, then the eight assignments |
| Sha256.RoundIsShift | js/crypto.js:328-338 | a round shifts the registers and adds T1 and T2 in 32-bit arithmetic |
| Sha256.AddInto | js/crypto.js:341-348 | each slot of `HASH` becomes its sum with the register |
| Sha256.SHA256 | js/crypto.js:264-393 | `SHA256` returns 64 lower-case hex digits, the hex of the chaining value of the padded UTF-8-style encoding of the text (each surrogate encoded on its own) |
| Cipher.XorLoop | js/crypto.js:454-457 | the loop computes `Xored` |
| Cipher.XoredTwice | js/crypto.js:452-469 | the loop keeps the length, and running it twice with one key gives the text back |
| Cipher.XoredKeyStream | js/crypto.js:455 | the key only matters modulo its length |
| Cipher.TransformRefuses | js/crypto.js:401-409 | an input is refused exactly when it is empty or the key has fewer than eight units, checked in that order |
| Cipher.DecryptEncrypt | js/crypto.js:396-469 | what the tool encrypts, it decrypts with the same key |
| Text.ToLower | js/diff.js:154 | ASCII `toLowerCase`: the same length, no capital left |
| Text.TrimCollapseClean | js/diff.js:151 | `replace(/\s+/g, ' ').trim()` leaves only single spaces, none at either end |
| Text.CollapseClean | js/diff.js:151 | a clean string is left alone by collapsing |
| Text.Split | js/diff.js:256 | `split` gives at least one part, none holding the separator |
| Text.CountJoin | js/money.js:247 | joining parts with a separator adds no other character: every other character occurs as often as in the parts laid end to end |
| Text.JoinSplit | js/money.js:245-247 | joining the parts of a split gives the string back |
| Text.SplitCount | js/money.js:245-246 | there is one more part than separators |
| Text.DecimalString | js/convert.js:509 | `String(n)` for a natural number: digits without a leading zero whose value is n |

## Left out

- The page itself: the DOM, event wiring, `alert`, the clipboard, file reading,
  timers and scroll syncing. The handlers are modelled from their inputs to the
  screen content they produce.
- `escapeHtml` and `hljs` highlighting in `renderDiff`: rows carry their raw
  text. The HTML markup around the rows is not modelled either.
- `JSON.parse` and the driver functions `convertTo*`; `Json.Json` is the parsed
  value. Object key order is taken as given: the reordering `Object.entries`
  applies to integer-like keys is not modelled.
- `parseFloat`, `toFixed` and floating point in `convertToChineseMoney`: the
  amount is a whole number of fen (`Money.Amount`). Rounding of long decimals
  is not modelled.
- `Number.isInteger` in the type mappers: a number carries a flag saying
  whether it is an integer. `String(value)` of a non-integer number is not
  modelled.
- `toLowerCase`/`toUpperCase` are ASCII-only; Unicode case mapping is not
  modelled.
- `btoa`, `atob`, `unescape`, `escape`, `encodeURIComponent` and
  `decodeURIComponent` around the XOR loop, and the Base64 and URL tools. Their
  `try`/`catch` paths are out as well.
- `Md5.MD5`: requires the UTF-8 text to be under 2^28 bytes, where `len >> 5`
  would turn negative.
- `Sha256.SHA256`: the same bound, and `hexcase`/`chrsz` are fixed at their
  values (0 and 8).
- The model makes no claim that the MD5 and SHA-256 constants, shift amounts
  and message indexes are those of RFC 1321 and FIPS 180-4. It proves what the
  loops compute from the constants the code holds.
- `Sigma0256`, `Sigma1256`, `Gamma0256` and `Gamma1256` are modelled as the
  code writes them. No separate property is proved about them.
- `Sha256.AddInto`: the eight `HASH[k] = safe_add(...)` statements are written
  as one loop over the slots.
- `DiffBlocks.PromoteChanged`: the source mutates the items of the removed
  block in place, and those objects are shared with `diff`. The model builds
  new items, so that aliasing is not modelled.
- Json.Entries and Classes.DropLast: JSON strings are sequences of Unicode
  characters, while JavaScript indexes UTF-16 code units. For a character
  outside the Basic Multilingual Plane the two differ: `Object.entries("😀")`
  gives two entries, one per surrogate, where `Json.Entries` gives one, which
  changes what `jsonToXml` and `parseJsonToClasses` produce for a string
  root; `key.slice(0, -1)` on a key ending in such a character leaves a lone
  high surrogate, where `Classes.DropLast` removes the whole character.
- Cipher.Transform: the empty-input refusal is tested on the text the XOR
  loop sees. In `aesDecrypt` the test is on the Base64 text before `atob`, so
  an input such as three spaces, which decodes to the empty text, is not
  refused there; the Base64 step is not modelled.
- `renderDiff`'s `updateStats` DOM writes and `clearBtn`/`sampleBtn` are not
  modelled; the counters are returned.

## Findings

| source | as written | input that shows it | evidently intended | confidence | as-written member | corrected member |
|---|---|---|---|---|---|---|
| js/money.js:245-252 | the two-decimal cut tests `parts`, computed before more than one dot is merged away, so a merged value keeps all its decimals | one input event whose value already holds two dots, such as pasting "1.2.345" (or typing '.' after the '1' of "12.345"), leaves "1.2345" in the field | at most two decimals after the merge | high, not executed | MoneyInput.SanitizedManyDots | MoneyInput.IntendedDecimals |
| js/convert.js:587-588 | a quoted string only has its `"` escaped; a backslash stays bare inside the double quotes, which YAML treats as an escape | the string `C:\new` is written `"C:\new"`, read as `C:` + line break + `ew` | backslashes escaped too, so the value reads back | high, not executed | Yaml.BackslashMisread | Yaml.FormatEscapedReadsBack |
| js/convert.js:587-588 | a string containing a line break is quoted, but the break is written bare; a lenient YAML reader folds it into a space, and a strict one rejects the under-indented continuation line | the string "a\nb" reads back as "a b" in a lenient reader | the break written as `\n` | medium, not executed | Yaml.LineBreakFolded | Yaml.FormatEscapedReadsBack |
