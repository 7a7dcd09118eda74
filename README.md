# X.Extensions.Text in Dafny

This project models the text helpers of the X.Extensions.Text library and of its older X.Text
package, together with their Cyrillic transliterators, and proves properties of the model.

- `TextHelper` (text_helper.dfy) is the `TextHelper` class of X.Extensions.Text. It covers:
  - `Substring` with and without an end part;
  - `Replace` over a list of targets;
  - `CleanCharacters`, which builds a slug;
  - `ToPlainText(text)`, the HTML-to-text conversion;
  - `ToPlainText(text, preserveLineBreaks)` and `TrimLineBreaksFromStart`;
  - `GetKeywords` and `CutText`.
- `XTextHelper` (x_text_helper.dfy) is the `TextHelper` of X.Text.
  - Its `Substring`, `Replace`, `CleanCharacters` and `ToPlainText(text)` do exactly what the
    X.Extensions.Text ones do, so the model states them once, in `TextHelper`. Only the system
    characters differ: X.Text lets callers set them, so here they are a parameter.
  - The module holds what differs. Line breaks are marked with ordinal comparison, under the
    placeholder "LLineB77Breake", and leading breaks are not trimmed. That also changes what
    `GetKeywords` sees.
- `CyrillicTransliterator` (cyrillic_transliterator.dfy) is the X.Extensions.Text transliterator.
- `Transliterator` (transliterator.dfy) is the X.Text one.
- Both transliterators are an ordered table of (Cyrillic, Latin) pairs. A text runs through one
  ordinal `String.Replace` per entry. `SubstitutionTable` (substitution_table.dfy) holds the
  reasoning the two tables share. The tables are copied entry for entry in dictionary order,
  which for a dictionary that is only ever added to is the order of insertion.
- `Strings` (strings.dfy) models the .NET string operations used here:
  - `ReplaceAll` is `String.Replace`: a left-to-right scan with non-overlapping matches,
    comparing ordinally or ignoring ASCII case;
  - also `StartsWith`, `Contains`, `IndexOf`/`LastIndexOf`, `Trim`, `ToLower`, `Split` and `Join`;
  - a `StringBuilder` class whose `Replace` updates its buffer in place.
- `Linq` (linq.dfy) models the query operators `GetKeywords` uses: `Distinct`, a stable
  `OrderByDescending` and `Take`.
- `TextHelperExamples`, `CyrillicTransliteratorTests` and `TransliteratorExamples` prove the
  repository's unit-test cases on the model, plus a few cases that show where the two copies
  differ.
- `ToPlainText(text)` starts with eight regular-expression passes. They are the parameter
  `regexPasses: string -> string`, and every property of the conversion holds for every such
  function. The two passes that delete `<…>` and `{…}` runs are modelled exactly, by
  `StripDelimited`.

## Model

| member | source | states |
|---|---|---|
| TextHelper.SystemCharacters | src/X.Extensions.Text/TextHelper.cs:19-25 | the system characters in source order; none is empty, so each is a legal Replace target |
| TextHelper.SystemCharactersShape | src/X.Text/TextHelper.cs:21-27 | no one-character system character is '-' or a lower-case letter (the X.Text defaults are the same list) |
| TextHelper.Substring | src/X.Extensions.Text/TextHelper.cs:45-58 | null or empty text gives ""; text within `length` is returned as is; longer text gives exactly `length` characters ending in `endPart` and keeps the first `length - \|endPart\|` characters; it fails (ArgumentOutOfRange) exactly when `endPart` is longer than `length`; src/X.Text/TextHelper.cs:48-61 is the same code |
| TextHelper.SubstringPrefix | src/X.Extensions.Text/TextHelper.cs:33-36 | with no end part, longer text gives its first `length` characters; a negative length fails |
| TextHelper.SubstringIdempotent | src/X.Extensions.Text/TextHelper.cs:45-58 | truncating a truncated text again with the same arguments changes nothing |
| TextHelper.Replace | src/X.Extensions.Text/TextHelper.cs:90-93 | no targets leaves the text unchanged |
| TextHelper.ReplaceInOrder | src/X.Extensions.Text/TextHelper.cs:90-93 | the aggregate applies the targets in order: replacing `a + b` is replacing `a`, then `b` |
| TextHelper.ReplaceRemoves | src/X.Text/TextHelper.cs:93-96 | a one-character target does not survive unless the replacement brings it back; no character is introduced that neither the text nor the replacement holds |
| TextHelper.CollapseSpaces | src/X.Extensions.Text/TextHelper.cs:73-76 | the double-space loop ends with no double space left and uses only characters of its input |
| TextHelper.CollapseStepKeepsOut | src/X.Extensions.Text/TextHelper.cs:75 | one round of the loop shortens the text, so the loop ends, and introduces no character |
| TextHelper.SlugClean | src/X.Extensions.Text/TextHelper.cs:65-81 | a slug has no space and no upper-case letter, starts and ends without white space, and holds none of the one-character system characters when none of them is '-' or a lower-case letter |
| TextHelper.SlugOmits | src/X.Extensions.Text/TextHelper.cs:65-81 | a space, an upper-case letter, or a character gone after the system characters became spaces is missing from the slug |
| TextHelper.SlugTrimmed | src/X.Extensions.Text/TextHelper.cs:78 | lower-casing and turning spaces into '-' keeps the trimmed text trimmed |
| TextHelper.CleanCharactersWith | src/X.Text/TextHelper.cs:68-84 | the loop computes the slug for the given system characters; the result has no space, is trimmed, and holds no one-character system character |
| TextHelper.CleanCharacters | src/X.Extensions.Text/TextHelper.cs:65-81 | the same for the built-in system characters, with no system character left |
| TextHelper.StripDelimited | src/X.Extensions.Text/TextHelper.cs:187-192 | deleting `<…>` (and `{…}`) runs never lengthens the text, adds no character, leaves no opening delimiter that a closing one follows, and keeps a text without opening delimiters as it is |
| TextHelper.StripTag | src/X.Extensions.Text/TextHelper.cs:187-189 | a delimited run at the front is deleted whole |
| TextHelper.StripPlainPrefix | src/X.Extensions.Text/TextHelper.cs:187-189 | a prefix without opening delimiters is kept |
| TextHelper.SymbolsForReplace | src/X.Extensions.Text/TextHelper.cs:202 | the special symbols, none empty |
| TextHelper.SymbolsCleared | src/X.Extensions.Text/TextHelper.cs:202-207 | after the symbol loop none of < > & / \\ ? = is left |
| TextHelper.PlainTextIdlePasses | src/X.Extensions.Text/TextHelper.cs:195-222 | the `[<]` and `[>]` passes change nothing, and after the symbol loop only the CR and LF replacements among the literals can still fire |
| TextHelper.RemovalsIdle | src/X.Extensions.Text/TextHelper.cs:209-222 | on a text without '<' and '&' the fourteen removals only turn CR and LF into spaces |
| TextHelper.PlainTextClean | src/X.Extensions.Text/TextHelper.cs:163-225 | the output of ToPlainText is trimmed and holds none of < > & / \\ ? = CR LF, whatever the regular expressions do |
| TextHelper.PlainTextStrips | src/X.Extensions.Text/TextHelper.cs:187-224 | when what is left after the tag and brace passes is trimmed and plain, it is the result |
| TextHelper.PlainTextKeepsPlain | src/X.Extensions.Text/TextHelper.cs:163-225 | ToPlainText leaves a trimmed plain text alone when the regular expressions do |
| TextHelper.RemoveLiterals | src/X.Extensions.Text/TextHelper.cs:209-222 | the fourteen StringBuilder replacements, in order |
| TextHelper.RemoveTags | src/X.Extensions.Text/TextHelper.cs:209-218 | the first ten of them, in order |
| TextHelper.ToPlainText | src/X.Extensions.Text/TextHelper.cs:163-225 | the method computes the conversion; its result is trimmed and clean as above; src/X.Text/TextHelper.cs:145-207 is the same code |
| TextHelper.LineBreakTags | src/X.Extensions.Text/TextHelper.cs:110-114 | the thirteen line-break tags, each 3 to 6 characters from '<' to '>' |
| TextHelper.LineBreaksMarked | src/X.Extensions.Text/TextHelper.cs:117-120 | with a placeholder of five or more characters and no '<' or '>', no line-break tag is left after marking |
| TextHelper.NoLineBreakTagLeft | src/X.Extensions.Text/TextHelper.cs:117-120 | the case-insensitive marking leaves no line-break tag, in any case |
| TextHelper.RedundantTagPass | src/X.Extensions.Text/TextHelper.cs:112-120 | under IgnoreCase the passes for the upper-case BR tags and the lower-case p tags find nothing, because their twins ran first |
| TextHelper.NoClosingParagraphLeft | src/X.Extensions.Text/TextHelper.cs:113-120 | a lower-case "</p>" is marked too, by "</P>" |
| TextHelper.CollapseRepeats | src/X.Extensions.Text/TextHelper.cs:123-126 | the collapse loop ends with no two adjacent placeholders, never lengthens the text, adds no character, and leaves a text without a repeat unchanged |
| TextHelper.CollapseStep | src/X.Extensions.Text/TextHelper.cs:125 | one round shortens the text and adds no character |
| TextHelper.CollapseLineBreaks | src/X.Extensions.Text/TextHelper.cs:123-126 | the while loop computes CollapseRepeats |
| TextHelper.TrimLeading | src/X.Extensions.Text/TextHelper.cs:145-155 | the result is a suffix of the text that does not start with the placeholder, and what was dropped is whole copies of it |
| TextHelper.DropRepeat | src/X.Extensions.Text/TextHelper.cs:150-153 | one more copy in front of a run of copies is a run of copies |
| TextHelper.TrimLineBreaksFromStart | src/X.Extensions.Text/TextHelper.cs:143-156 | the loop computes TrimLeading |
| TextHelper.MarkTags | src/X.Extensions.Text/TextHelper.cs:117-120 | the foreach computes the marking |
| TextHelper.BreaksRestored | src/X.Extensions.Text/TextHelper.cs:134 | restoring "<br />" in a clean trimmed text keeps it trimmed; every '<' then begins "<br />", and none of & \\ ? = CR LF appears |
| TextHelper.PlainTextWithBreaksClean | src/X.Extensions.Text/TextHelper.cs:101-135 | the output of ToPlainText(text, true) is trimmed, every '<' in it begins "<br />", and it holds none of & \\ ? = CR LF |
| TextHelper.ToPlainTextWithBreaks | src/X.Extensions.Text/TextHelper.cs:101-135 | with the flag it computes the line-break-preserving conversion, without it plain ToPlainText |
| TextHelper.KeepLineBreaks | src/X.Extensions.Text/TextHelper.cs:108-134 | the preserving branch, whose result is trimmed and whose every '<' begins "<br />" |
| TextHelper.LongTokens | src/X.Extensions.Text/TextHelper.cs:241-243 | the where/select keeps at most as many tokens as there are parts |
| TextHelper.LongTokensMembers | src/X.Extensions.Text/TextHelper.cs:241-243 | a word is a token exactly when it is some part longer than four characters, trimmed and lower-cased |
| TextHelper.TopKeywordsRanked | src/X.Extensions.Text/TextHelper.cs:245-254 | the keywords: min(count, distinct tokens) of them (none for count <= 0), none twice, all tokens, by non-increasing frequency, ties in order of first occurrence; X.Text's query at src/X.Text/TextHelper.cs:227-236 is the same |
| TextHelper.TopKeywordsMaximal | src/X.Extensions.Text/TextHelper.cs:250-252 | a token left out occurs at most as often as any keyword taken, and when as often, first occurs later |
| TextHelper.KeywordsFromLongParts | src/X.Extensions.Text/TextHelper.cs:235-254 | every keyword is a long part of the cleaned text; at most `count` keywords, none twice |
| TextHelper.TokensWithoutComma | src/X.Extensions.Text/TextHelper.cs:236-243 | with ',' among the system characters no token holds a comma |
| TextHelper.CommaIsSystem | src/X.Extensions.Text/TextHelper.cs:23 | ',' is a system character |
| TextHelper.JoinedKeywords | src/X.Extensions.Text/TextHelper.cs:256 | comma-free keywords joined by ", " hold one comma fewer than there are keywords |
| TextHelper.KeywordsListed | src/X.Extensions.Text/TextHelper.cs:233-259 | GetKeywords' output therefore has exactly one comma fewer than it lists keywords |
| TextHelper.KeywordListShape | src/X.Extensions.Text/TextHelper.cs:236-256 | the keyword list of a converted text is its ranked keywords joined by ", ": at most `count` of them (none for count <= 0), none twice, each a long part of the text, with one comma fewer than keywords |
| TextHelper.Keywords | src/X.Extensions.Text/TextHelper.cs:233-259 | GetKeywords(text, count) joins by ", " the ranked keywords of ToPlainText(text, true): at most `count` of them, none twice |
| TextHelper.CutText | src/X.Extensions.Text/TextHelper.cs:267-284 | the code as written: text within `maxLength` is returned; otherwise the text through the last '.' at index <= `maxLength`, or the first `maxLength` characters plus "..."; a negative `maxLength` fails |
| TextHelper.CutTextOverruns | src/X.Extensions.Text/StringExtensions.cs:105-119 | the code as written can exceed `maxLength` (see Findings) |
| TextHelper.CutTextWithin | src/X.Extensions.Text/StringExtensions.cs:111-115 | the corrected cut never exceeds `maxLength`: it keeps the text through the last '.' before `maxLength`, or else `maxLength - 3` characters and "..." |
| TextHelper.CutTextWithinAgrees | src/X.Extensions.Text/TextHelper.cs:267-284 | whenever the code as written stays within `maxLength`, the corrected version gives the same result |
| XTextHelper.ToPlainTextWithBreaks | src/X.Text/TextHelper.cs:104-138 | with the flag it marks ordinally, collapses, converts and restores, with no trimming of leading breaks; without it plain ToPlainText |
| XTextHelper.NoLineBreakTagLeft | src/X.Text/TextHelper.cs:111-127 | the marker "LLineB77Breake" hides every tag: no line-break tag is left after marking |
| XTextHelper.PlainTextWithBreaksClean | src/X.Text/TextHelper.cs:104-138 | the output is trimmed, every '<' begins "<br />", and none of & \\ ? = CR LF |
| XTextHelper.ClosingParagraphKept | src/X.Text/TextHelper.cs:114-127 | compared ordinally, a lower-case "</p>" is not a line break: every text that holds one still holds one after marking |
| XTextHelper.Keywords | src/X.Text/TextHelper.cs:215-242 | X.Text's GetKeywords joins by ", " the ranked keywords of its own ToPlainText(text, true), for the given system characters: at most `count` of them, none twice |
| XTextHelper.KeywordsListed | src/X.Text/TextHelper.cs:215-242 | X.Text's GetKeywords lists its keywords with one comma fewer than keywords, for any system characters including ',' |
| Strings.ReplaceAll | src/X.Extensions.Text/TextHelper.cs:92 | String.Replace as a left-to-right scan of non-overlapping matches; a replacement no longer than the pattern never lengthens the text |
| Strings.ReplaceAbsent | src/X.Extensions.Text/TextHelper.cs:92 | a text that does not contain the pattern is returned unchanged |
| Strings.ReplaceLength | src/X.Extensions.Text/TextHelper.cs:125 | the result is as long as the text plus, for each match replaced, the replacement's length minus the pattern's |
| Strings.ReplaceRemovesChar | src/X.Extensions.Text/TextHelper.cs:92 | replacing a one-character pattern by a string without it leaves none of that character |
| Strings.ReplaceKeepsApart | src/X.Text/TextHelper.cs:114-127 | a string no match of the pattern can overlap, at any offset, is still contained after the replacement |
| Strings.BracketedApart | src/X.Text/TextHelper.cs:114-127 | two different tags, each running from '<' to '>' with no other bracket, cannot overlap at any offset |
| Strings.ReplaceBringsRep | src/X.Text/Transliterator.cs:137 | replacing a pattern the text contains leaves a text containing the replacement |
| Strings.StringBuilder.Replace | src/X.Extensions.Text/TextHelper.cs:204-222 | StringBuilder.Replace updates the buffer to the ordinal String.Replace of its old contents |
| Linq.OrderByDescending | src/X.Extensions.Text/TextHelper.cs:250-252 | the sort is a permutation of its input (same multiset) with non-increasing keys |
| Linq.OrderIsStable | src/X.Extensions.Text/TextHelper.cs:250-252 | elements with equal keys keep their relative order |
| Linq.Distinct | src/X.Extensions.Text/TextHelper.cs:245 | the distinct elements in order of first occurrence, each once |
| Linq.RankedTop | src/X.Extensions.Text/TextHelper.cs:245-252 | taking the first `count` of the ordered distinct elements keeps the ranking |
| SubstitutionTable.FoldIsLetterwise | src/X.Extensions.Text/CyryllicTransliterator.cs:156-164 | one Replace per entry equals a letter-by-letter substitution, once single-letter patterns are indexed and longer ones cannot fire |
| SubstitutionTable.PairComesBack | src/X.Text/Transliterator.cs:133-141 | an entry whose pattern no earlier pattern can overlap, and whose one-character replacement no later pattern holds, leaves that character in the result |
| SubstitutionTable.TranscribeTwice | src/X.Extensions.Text/CyryllicTransliterator.cs:141-164 | a letterwise trip is undone letter by letter when each letter is |
| CyrillicTransliterator.TableShape | src/X.Extensions.Text/CyryllicTransliterator.cs:16-133 | the 77 entries: Cyrillic non-empty keys, Latin non-empty values |
| CyrillicTransliterator.ToTransliteration | src/X.Extensions.Text/CyryllicTransliterator.cs:156-164 | the foreach computes ToLatin, a Replace(key, value) per entry in table order |
| CyrillicTransliterator.FromTransliteration | src/X.Extensions.Text/CyryllicTransliterator.cs:141-149 | the foreach computes ToCyrillic, a Replace(value, key) per entry in table order |
| CyrillicTransliterator.ToLatinLetterwise | src/X.Extensions.Text/CyryllicTransliterator.cs:156-164 | for every text, transliteration is letter by letter: each letter that keys an entry becomes the first such entry's value |
| CyrillicTransliterator.ToLatinSpells | src/X.Extensions.Text/CyryllicTransliterator.cs:18-132 | every text is spelled with the per-letter table LatinLetter |
| CyrillicTransliterator.ToLatinAppend | src/X.Extensions.Text/CyryllicTransliterator.cs:156-164 | transliterating a concatenation is concatenating the transliterations |
| CyrillicTransliterator.ToLatinKeepsForeign | src/X.Extensions.Text/CyryllicTransliterator.cs:156-164 | a text without Cyrillic letters is unchanged |
| CyrillicTransliterator.ToLatinRemovesKeys | src/X.Extensions.Text/CyryllicTransliterator.cs:156-164 | a one-letter key never survives |
| CyrillicTransliterator.ToLatinAddsNoCyrillic | src/X.Extensions.Text/CyryllicTransliterator.cs:156-164 | no Cyrillic letter is introduced |
| CyrillicTransliterator.ToLatinKeepsUnkeyed | src/X.Extensions.Text/CyryllicTransliterator.cs:156-164 | a character that keys no entry is kept |
| CyrillicTransliterator.ForwardDeadEntries | src/X.Extensions.Text/CyryllicTransliterator.cs:18-132 | the entries 22, 23, 30 and 31 ("хэ", "Хэ", "во", "Во") never fire: an earlier one-letter key removed their first letter |
| CyrillicTransliterator.ToCyrillicSpells | src/X.Extensions.Text/CyryllicTransliterator.cs:141-149 | where no value longer than one letter can occur, the result is spelled letter by letter with CyrillicLetter |
| CyrillicTransliterator.ToCyrillicKeepsForeign | src/X.Extensions.Text/CyryllicTransliterator.cs:141-149 | a text without Latin letters is unchanged |
| CyrillicTransliterator.ToCyrillicRemovesValues | src/X.Extensions.Text/CyryllicTransliterator.cs:141-149 | a one-letter value never survives |
| CyrillicTransliterator.ToCyrillicAddsNoLatin | src/X.Extensions.Text/CyryllicTransliterator.cs:141-149 | no Latin letter is introduced |
| CyrillicTransliterator.ToCyrillicKeepsUnvalued | src/X.Extensions.Text/CyryllicTransliterator.cs:141-149 | a character in no value is kept |
| CyrillicTransliterator.ToCyrillicAround | src/X.Extensions.Text/CyryllicTransliterator.cs:141-149 | a character in neither alphabet, such as a space, splits the text into parts converted independently |
| CyrillicTransliterator.BackwardDeadEntries | src/X.Extensions.Text/CyryllicTransliterator.cs:18-132 | eleven entries never fire backwards, because an earlier entry consumed their value |
| CyrillicTransliterator.RoundTrip | src/X.Extensions.Text/CyryllicTransliterator.cs:141-164 | a text whose letters each come back from their own spelling, and whose spelling holds no long value, survives the trip to Latin and back |
| Transliterator.TableShape | src/X.Text/Transliterator.cs:20-129 | the X.Text table: Cyrillic non-empty keys, Latin non-empty values |
| Transliterator.FromCyrillicToTransliteration | src/X.Text/Transliterator.cs:143-151 | the foreach computes ToLatin |
| Transliterator.FromTransliterationToCyrillic | src/X.Text/Transliterator.cs:133-141 | the foreach computes ToCyrillic |
| Transliterator.ToLatinLetterwise | src/X.Text/Transliterator.cs:143-151 | for every text, transliteration is letter by letter |
| Transliterator.ToLatinSpells | src/X.Text/Transliterator.cs:20-129 | every text is spelled with LatinLetter |
| Transliterator.ToLatinAppend | src/X.Text/Transliterator.cs:143-151 | transliteration distributes over concatenation |
| Transliterator.ToLatinKeepsForeign | src/X.Text/Transliterator.cs:143-151 | a text without Cyrillic letters is unchanged |
| Transliterator.ToLatinRemovesKeys | src/X.Text/Transliterator.cs:143-151 | a one-letter key never survives |
| Transliterator.ToLatinAddsNoCyrillic | src/X.Text/Transliterator.cs:143-151 | no Cyrillic letter is introduced |
| Transliterator.ToLatinKeepsUnkeyed | src/X.Text/Transliterator.cs:143-151 | a character that keys no entry is kept |
| Transliterator.ToCyrillicSpells | src/X.Text/Transliterator.cs:133-141 | where no long value can occur, the result is spelled with CyrillicLetter |
| Transliterator.ToCyrillicKeepsForeign | src/X.Text/Transliterator.cs:133-141 | a text without Latin letters is unchanged |
| Transliterator.ToCyrillicRemovesValues | src/X.Text/Transliterator.cs:133-141 | a one-letter value never survives |
| Transliterator.ToCyrillicAddsNoLatin | src/X.Text/Transliterator.cs:133-141 | no Latin letter is introduced |
| Transliterator.ToCyrillicKeepsUnvalued | src/X.Text/Transliterator.cs:133-141 | a character in no value is kept |
| Transliterator.ToCyrillicAround | src/X.Text/Transliterator.cs:133-141 | a character in neither alphabet splits the text into independent parts |
| Transliterator.BackwardDeadEntries | src/X.Text/Transliterator.cs:20-129 | ten entries never fire backwards, among them е ← "e" behind э ← "e" |
| Transliterator.YeComesBack | src/X.Text/Transliterator.cs:133-141 | "ye" becomes "є" in every text: entry 4 ("є", "ye", line 26) runs before the one-letter entries for "y" and "e", and the four entries before it cannot break up a "ye" |
| Transliterator.RoundTrip | src/X.Text/Transliterator.cs:133-151 | the round trip, under the same conditions as for the other table |
| TextHelperExamples.SubstringCuts | X.Extensions.Text.Tests/TextHelperTests.cs:6 | "This is a test string." cut to 10 with "..." is "This is..." |
| TextHelperExamples.SubstringKeepsShort | X.Extensions.Text.Tests/TextHelperTests.cs:7 | "Short" is kept |
| TextHelperExamples.SubstringOfEmpty | X.Extensions.Text.Tests/TextHelperTests.cs:8 | "" and null give "" |
| TextHelperExamples.SlugOfEmpty | X.Extensions.Text.Tests/TextHelperTests.cs:24-31 | cleaning "" gives "" for any system characters |
| TextHelperExamples.CleanCharactersOfEmpty | X.Extensions.Text.Tests/TextHelperTests.cs:24-31 | cleaning "" gives "" |
| TextHelperExamples.MarksRemoved | X.Extensions.Text.Tests/TextHelperTests.cs:33-42 | removing "&" and "!" from `a & b!` leaves `a  b` |
| TextHelperExamples.ReplaceRemovesBoth | X.Extensions.Text.Tests/TextHelperTests.cs:33-42 | "Hello & World!" becomes "Hello  World" |
| TextHelperExamples.PlainTextOfTagged | X.Extensions.Text.Tests/TextHelperTests.cs:44-52 | a plain word between an opening and a closing tag converts to the word |
| TextHelperExamples.ParagraphToPlainText | X.Extensions.Text.Tests/TextHelperTests.cs:45 | "<p>This is a test</p>" converts to "This is a test" |
| TextHelperExamples.NestedToPlainText | X.Extensions.Text.Tests/TextHelperTests.cs:46 | the div-wrapped paragraph converts to "This is a test" once the fifth expression drops the div tags |
| TextHelperExamples.DocumentToPlainText | X.Extensions.Text.Tests/TextHelperTests.cs:47 | the html/body document converts to "This is a test" |
| TextHelperExamples.ClosingParagraphMarked | src/X.Extensions.Text/TextHelper.cs:110-120 | the case-insensitive marking turns "</p>" into the placeholder (X.Text leaves it) |
| TextHelperExamples.XClosingParagraphAlone | src/X.Text/TextHelper.cs:114-127 | X.Text's ordinal marking leaves "</p>" as it is |
| TextHelperExamples.MarkOneBreak | src/X.Extensions.Text/TextHelper.cs:117-120 | one "<br>" in a text without other '<' becomes one placeholder |
| TextHelperExamples.BreakBetween | tests/X.Extensions.Text.Tests/HtmlConverterTests.cs:12 | an inner "<br>" between two words becomes "<br />" |
| TextHelperExamples.MarkTwoBreaks | src/X.Extensions.Text/TextHelper.cs:117-120 | two adjacent "<br/>" in a text without other '<' become two placeholders |
| TextHelperExamples.CollapseTwo | src/X.Extensions.Text/TextHelper.cs:123-126 | two adjacent placeholders between short texts without its first character collapse into one |
| TextHelperExamples.DoubleBreakBetween | tests/X.Extensions.Text.Tests/HtmlConverterTests.cs:13 | two adjacent "<br/>" between two words become a single "<br />" |
| TextHelperExamples.HelloDoubleBreakWorld | tests/X.Extensions.Text.Tests/HtmlConverterTests.cs:13 | "Hello<br/><br/>World" gives "Hello<br />World" |
| TextHelperExamples.XBreakBetween | src/X.Text/TextHelper.cs:104-138 | the same for X.Text |
| TextHelperExamples.HelloBreakWorld | tests/X.Extensions.Text.Tests/HtmlConverterTests.cs:12 | "Hello<br>World" gives "Hello<br />World" |
| TextHelperExamples.XHelloBreakWorld | src/X.Text/TextHelper.cs:104-138 | X.Text gives "Hello<br />World" too |
| TextHelperExamples.LeadingBreakDropped | src/X.Extensions.Text/TextHelper.cs:128 | a leading "<br>" is dropped |
| TextHelperExamples.XLeadingBreakKept | src/X.Text/TextHelper.cs:129-136 | X.Text keeps a leading "<br>" as "<br />" |
| TextHelperExamples.LeadingBreak | tests/X.Extensions.Text.Tests/HtmlConverterTests.cs:9 | "<br>This is a test" gives "This is a test"; X.Text gives "<br />This is a test" |
| TextHelperExamples.BreakRemoved | tests/X.Extensions.Text.Tests/HtmlConverterTests.cs:24-34 | without preserving breaks a "<br>" between plain words is removed |
| TextHelperExamples.HelloWorldJoined | tests/X.Extensions.Text.Tests/HtmlConverterTests.cs:27 | "Hello<br>World" gives "HelloWorld" |
| TextHelperExamples.LeadingBreakRemoved | tests/X.Extensions.Text.Tests/HtmlConverterTests.cs:25 | "<br>This is a test" gives "This is a test" |
| CyrillicTransliteratorTests.ToLatinPrivet | X.Extensions.Text.Tests/CyrillicTransliteratorTests.cs:15 | "привет" becomes "privet" |
| CyrillicTransliteratorTests.ToLatinMir | X.Extensions.Text.Tests/CyrillicTransliteratorTests.cs:16 | "мир" becomes "mir" |
| CyrillicTransliteratorTests.ToLatinTest | X.Extensions.Text.Tests/CyrillicTransliteratorTests.cs:17 | "тест" becomes "test" |
| CyrillicTransliteratorTests.ToLatinShchyoka | X.Extensions.Text.Tests/CyrillicTransliteratorTests.cs:18 | "Щёка" becomes "Shchyoka" |
| CyrillicTransliteratorTests.ToLatinTsarevna | X.Extensions.Text.Tests/CyrillicTransliteratorTests.cs:19 | "Царевна" becomes "Tsarevna" |
| CyrillicTransliteratorTests.ToCyrillicPrivet | X.Extensions.Text.Tests/CyrillicTransliteratorTests.cs:27 | "privet" becomes "привет" |
| CyrillicTransliteratorTests.ToCyrillicMir | X.Extensions.Text.Tests/CyrillicTransliteratorTests.cs:28 | "mir" becomes "мир" |
| CyrillicTransliteratorTests.ToCyrillicTest | X.Extensions.Text.Tests/CyrillicTransliteratorTests.cs:29 | "test" becomes "тест" |
| CyrillicTransliteratorTests.ToCyrillicShchyoka | X.Extensions.Text.Tests/CyrillicTransliteratorTests.cs:30 | "Shchyoка" (ending in Cyrillic "ка") becomes "Щёка" |
| CyrillicTransliteratorTests.ToCyrillicTsarevna | X.Extensions.Text.Tests/CyrillicTransliteratorTests.cs:31 | "Tsarevna" becomes "Царевна" |
| CyrillicTransliteratorTests.ToLatinEmpty | X.Extensions.Text.Tests/CyrillicTransliteratorTests.cs:38-43 | "" stays "" |
| CyrillicTransliteratorTests.ToCyrillicEmpty | X.Extensions.Text.Tests/CyrillicTransliteratorTests.cs:45-50 | "" stays "" |
| CyrillicTransliteratorTests.ToLatinHelloWorld | X.Extensions.Text.Tests/CyrillicTransliteratorTests.cs:52-58 | "hello world" is unchanged |
| CyrillicTransliteratorTests.ToCyrillicHelloWorld | X.Extensions.Text.Tests/CyrillicTransliteratorTests.cs:60-66 | "hello world" becomes "хэлло ворлд" |
| CyrillicTransliteratorTests.YeDoesNotRoundTrip | src/X.Extensions.Text/CyryllicTransliterator.cs:18-132 | "є" goes to "ye" and comes back as "йе" |
| CyrillicTransliteratorTests.MirRoundTrip | src/X.Extensions.Text/CyryllicTransliterator.cs:141-164 | "мир" survives the round trip |
| TransliteratorExamples.ToLatinPrivet | src/X.Text/Transliterator.cs:143-151 | "привет" becomes "privet" |
| TransliteratorExamples.ToCyrillicPrivet | src/X.Text/Transliterator.cs:133-141 | "privet" comes back as "привэт": "e" reads as э |
| TransliteratorExamples.ToCyrillicTsarevna | src/X.Text/Transliterator.cs:133-141 | "Tsarevna" comes back as "Царэвна" |
| TransliteratorExamples.EDoesNotRoundTrip | src/X.Text/Transliterator.cs:20-129 | "е" goes to "e" and comes back as "э" |
| TransliteratorExamples.YeRoundTrips | src/X.Text/Transliterator.cs:20-129 | "є" survives the round trip in the X.Text table |

## Left out

- The eight regular expressions of ToPlainText(text) (src/X.Extensions.Text/TextHelper.cs:165-185) are a function parameter, not a regex engine. The properties hold for every such function. The example cases say in their requires what the expressions do to the case's input.
- Ext's line-break marking uses Regex.Replace with IgnoreCase. The tags contain no regex metacharacters, so this is modelled as a literal replacement that ignores ASCII case.
- Case folding is ASCII. `ToLower` lower-cases only A–Z; `Trim` removes what Char.IsWhiteSpace accepts. Culture-sensitive behaviour of `ToLower` and `StartsWith` is not modelled; all comparisons are ordinal.
- Null strings are modelled only for `Substring` (an `Option`). Everywhere else a null argument, which throws in .NET, is not modelled.
- StringBuilder and the `new StringBuilder(...)` copies in ToPlainText are modelled by one `StringBuilder` class over `seq<char>`; character-array aliasing is not.
- TextHelper.TrimLineBreaksFromStart: it requires a non-empty placeholder when the text is non-empty. With an empty placeholder the source loops forever.
- TextHelper.Replace: it requires non-empty targets, because String.Replace throws ArgumentException on an empty one.
- The order of a `Dictionary`'s enumeration is taken to be insertion order. That is the behaviour for a dictionary that is only ever added to, and it decides both the transliteration tables and the ranking in GetKeywords. OrderByDescending is taken to be stable, as LINQ documents it.
- The interfaces ITransliterator and the `StringExtensions` wrappers only delegate to the models above and are not modelled separately.
- The CleanCharacters case "Hello & World!" → "hello-world" (X.Extensions.Text.Tests/TextHelperTests.cs:15-22) is not worked through. Its literal evaluation over the 38 system characters is too costly for the solver. The empty case and the general slug properties are proved instead.
- The HtmlConverter cases with paragraph tags are not worked through: "<p>This is a test</p>", "<P>This is a test</P>" and "<p>Hello<br/><br/>World" under preservation, and "<br><br><br>This is a test<p></p>" (tests/X.Extensions.Text.Tests/HtmlConverterTests.cs:10-11, 14, 37-49). Each needs the exact output of the regular expressions on a text holding a placeholder and a tag, which the function parameter leaves open, and the literal evaluation of the fourteen removals over it, which is too costly for the solver. The "<br>" and "<br/><br/>" cases and the general properties of marking, collapsing and trimming are proved instead.
- TextHelper.Keywords, XTextHelper.Keywords: their contracts state the joined ranked list, its bound and that no keyword repeats. That every keyword is a long part of the text, and the comma count, are stated on the text after the HTML conversion (KeywordListShape, KeywordsFromLongParts, KeywordsListed), because stating them on the composition is too costly for the solver.

## Findings

| source | as written | input that shows it | evidently intended | confidence | as-written member | corrected member |
|---|---|---|---|---|---|---|
| src/X.Extensions.Text/TextHelper.cs:267-284 | `LastIndexOf('.', maxLength)` also finds a '.' at index `maxLength`, and the fallback appends "..." after `maxLength` characters, so the result can be longer than `maxLength` | CutText("abcdef", 3) returns "abc..." (6 characters); CutText("abc.def", 3) returns "abc." (4 characters) | a result that does not exceed `maxLength`, as the wrapper's documentation (src/X.Extensions.Text/StringExtensions.cs:113) says | not executed | TextHelper.CutTextOverruns | TextHelper.CutTextWithin |
