# NoteEditor engine, modelled in Dafny

This project models the engine behind the NoteEditor viewer. A user pastes a note into the viewer. The note has a
timed transcript at the top (`00:00:02 - because for a long time…`), then a glossary header (`:::VOCAB:::`,
`Key Vocabulary:`, `- vocab`, `từ vựng` …), then glossary entries grouped into numbered or ruled sections.
While a video plays, the engine:

- finds the transcript line being spoken;
- plans a few searches for it (the previous full sentence, the middle fragments, the unfinished tail completed
  from the next line);
- shows the first glossary section that one of them finds, with the English part of its head marked;
- never goes back to an earlier section through the glossary or through a text match.

A manual search does the same for a typed term, without that floor.

The model has one module per source file:

| module | file | source | what it holds |
|---|---|---|---|
| `Strings` | `strings.dfy` | the JavaScript string built-ins the source relies on | `trim`, `trimStart`/`trimEnd`, `indexOf`, `includes`, `split`, `slice`, `toLowerCase`, `replace` of one character |
| `Text` | `text.dfy` | `text.ts` | the two normalisations, the needle pattern of `findIndexNormalized`, `isAsciiSentence`, `escapeHtml` and its inverse |
| `Constants` | `constants.dfy` | `constants.ts` | the constants, and the four regular expressions as exact matchers |
| `Parse` | `parse.dfy` | `parse.ts` | `timeToSec`, the line layout, glossary location, the transcript pattern, the binary search |
| `Section` | `section.dfy` | `section.ts` | section starts, the line binary search, section bounds |
| `Search` | `search.dfy` | `search.ts`, the indexing and matching half | tokens, the glossary index, the best-item scan, the four stages of `findBestHit` |
| `Plan` | `plan.dfy` | `search.ts`, the sentence half | sentence splitting, the look-back and look-forward loops, the search plan of a line |
| `Render` | `render.dfy` | `render.ts` | divider stripping, the quote split, the partial mark, the header split, the section and context renderings |
| `Engine` | `engine.dfy` | `useNoteEngine.ts` | the hook as a class `NoteEngine` whose fields are its state and refs, and the pure choice each effect makes |

Form follows the source:

- Loops in the source are methods with loop invariants (`ComputeLines`, `ParseTranscriptFromTop`, `FirstIdxAfter`,
  `ComputeSectionStarts`, `LineIndexForPos`, `GetSectionBoundsByPos`, `BuildVocabLineIndex`, the scoring loops,
  `SplitIntoSentencesKeepDot`, the look-back and look-forward, `BuildSearchPlanForLine`, `BuildContextHtml`, the
  plan loop of the tick). Each is proved equal to a function, and the properties are proved about that function.
- Expression-only code is functions.
- The hook's state (`content`, `lines`, `starts`, `headerIdx`, `vocabStart`, `entries`, `vocabIndex`,
  `sectionStarts`, `displayHtml`) and its two refs (`prevTimeRef`, `lastSectionStartRef`) are the fields of
  `NoteEngine`. Its effects and actions are methods that modify them.
- Every regular expression is written out as the exact language it accepts, including its greedy and
  backtracking choices. For example, the transcript pattern `(?:\d{1,3}:)?\d{1,2}:\d{2}` tries its eight ways to
  match the time stamp in the engine's order.
- `undefined` and `null` results are `Option`s.
- `-1` results stay `-1`.

## Model

| member | source | states |
|---|---|---|
| Strings.LowerChar | src/components/NoteEditor/text.ts:5 | the lower-cased character is not an upper-case letter, other characters are unchanged, white space stays white space |
| Strings.Lower | src/components/NoteEditor/text.ts:5 | lower-casing keeps the length |
| Strings.LowerAt | src/components/NoteEditor/text.ts:5 | lower-casing works one character at a time |
| Strings.WsRunEnd | src/components/NoteEditor/text.ts:8 | a run of `\s` from `i` is all white space and cannot be extended |
| Strings.WsRunStart | src/components/NoteEditor/text.ts:8 | a run of `\s` ending at `j` is all white space and cannot be extended to the left |
| Strings.LeadWs | src/components/NoteEditor/text.ts:9 | the leading white space is all white space and is followed by a non-space or the end |
| Strings.LeadWsUnique | src/components/NoteEditor/text.ts:9 | only one prefix length has that property |
| Strings.TrimStart | src/components/NoteEditor/text.ts:9 | `trimStart` drops a white-space prefix and leaves a text starting with a non-space |
| Strings.TrimEnd | src/components/NoteEditor/render.ts:66 | `replace(/\s+$/, "")` drops a white-space suffix and leaves a text ending with a non-space |
| Strings.TrimLo | src/components/NoteEditor/text.ts:9 | the first non-space of a range lies inside the range |
| Strings.TrimHi | src/components/NoteEditor/text.ts:9 | the end of the last non-space of a range lies inside the range |
| Strings.TrimLoMeans | src/components/NoteEditor/text.ts:9 | everything before the first non-space of a range is white space |
| Strings.TrimHiMeans | src/components/NoteEditor/text.ts:9 | everything after the last non-space of a range is white space |
| Strings.TrimMeans | src/components/NoteEditor/text.ts:9 | `trim` removes white-space borders and leaves an empty text or one with non-space ends |
| Strings.TrimKeepsNonWs | src/components/NoteEditor/text.ts:9 | a non-space character is in the trimmed text exactly when it is in the text |
| Strings.BlankIsTrimEmpty | src/components/NoteEditor/search.ts:18 | `!s.trim()` holds exactly for the texts made only of white space |
| Strings.TrimOfTrimmed | src/components/NoteEditor/text.ts:9 | a text with non-space ends is its own trim |
| Strings.TrimIdempotent | src/components/NoteEditor/text.ts:9 | trimming twice is trimming once |
| Strings.IndexOfFrom | src/components/NoteEditor/parse.ts:18 | `indexOf(n, from)` is -1 or an occurrence at or after `from`, and nothing occurs between `from` and it |
| Strings.IndexOf | src/components/NoteEditor/text.ts:23 | `indexOf` is -1 when there is no occurrence, else the first one |
| Strings.ContainsAt | src/components/NoteEditor/search.ts:38 | an occurrence anywhere makes `includes` true |
| Strings.IndexOfChar | src/components/NoteEditor/parse.ts:18 | the index of a character holds it and no earlier position does, and -1 means it is absent |
| Strings.SplitOn | src/components/NoteEditor/parse.ts:5 | `split` on one character always gives at least one piece |
| Strings.SplitOnPieces | src/components/NoteEditor/parse.ts:5 | no piece holds the separator |
| Strings.SplitOnJoin | src/components/NoteEditor/parse.ts:5 | joining the pieces with the separator gives back the text |
| Strings.Slice | src/components/NoteEditor/render.ts:102 | `slice` of bounds within the text is that range, and a reversed range is empty |
| Strings.ReplaceChar | src/components/NoteEditor/text.ts:43-47 | a global replace of an absent character changes nothing |
| Strings.ReplaceCharAppend | src/components/NoteEditor/text.ts:43-47 | a global replace of one character distributes over concatenation |
| Text.MapSearchQuotes | src/components/NoteEditor/text.ts:14-15 | straightening quotes for search keeps the length |
| Text.MapSearchQuotesAt | src/components/NoteEditor/text.ts:14-15 | each curly double quote becomes `"`, each `’` becomes `'`, every other character stays |
| Text.MapLooseQuotes | src/components/NoteEditor/text.ts:6 | `replace(/[“”"’']/g, "'")` keeps the length |
| Text.MapLooseQuotesAt | src/components/NoteEditor/text.ts:6 | every double or single quote, straight or curly, becomes `'` |
| Text.StripPunct | src/components/NoteEditor/text.ts:7 | stripping punctuation never lengthens the text |
| Text.StripPunctMeans | src/components/NoteEditor/text.ts:7 | no character of the class `[.,!?;:()[\]{}/\\]` is left |
| Text.StripPunctKeeps | src/components/NoteEditor/text.ts:7 | stripping only deletes characters: a property of every input character holds of every output character |
| Text.CollapseWs | src/components/NoteEditor/text.ts:8 | collapsing white space empties only the empty text |
| Text.CollapseWsMeans | src/components/NoteEditor/text.ts:8 | after `replace(/\s+/g, " ")` the only white space is single spaces, never two in a row |
| Text.CollapseWsKeeps | src/components/NoteEditor/text.ts:8 | collapsing introduces no character but the space |
| Text.CollapseWsFixed | src/components/NoteEditor/text.ts:8 | text already collapsed is unchanged |
| Text.TrimKeeps | src/components/NoteEditor/text.ts:9 | trimming introduces no character |
| Text.TrimKeepsSpacing | src/components/NoteEditor/text.ts:8-9 | trimming collapsed text leaves it collapsed |
| Text.NormalizeMeans | src/components/NoteEditor/text.ts:3-9 | `normalize` leaves no punctuation, no double or curly quote, no capital, and nothing to trim |
| Text.StrippedChars | src/components/NoteEditor/text.ts:5-7 | lower-casing, quote folding and stripping leave only characters outside those classes |
| Text.NormForSearchMeans | src/components/NoteEditor/text.ts:11-17 | `normForSearch` leaves no capital, no curly quote, single spaces only, and nothing to trim |
| Text.NormForSearchIdempotent | src/components/NoteEditor/text.ts:11-17 | normalising for search twice is normalising once |
| Text.FirstMatchFrom | src/components/NoteEditor/text.ts:30-31 | the regex search finds the leftmost position at or after `k` where the needle's pattern matches, or -1 |
| Text.FindIndexNormalized | src/components/NoteEditor/text.ts:19-33 | -1 for a blank needle or one absent from the normalised haystack; otherwise the leftmost match of the needle's case-insensitive, quote- and space-tolerant pattern, and -1 only when it matches nowhere |
| Text.CountAsciiLetters | src/components/NoteEditor/text.ts:36 | the letter count is at most the length |
| Text.CountNonWs | src/components/NoteEditor/text.ts:37 | the non-space count is at most the length |
| Text.LettersAreNonWs | src/components/NoteEditor/text.ts:36-37 | there are never more ASCII letters than non-space characters |
| Text.IsAsciiSentence | src/components/NoteEditor/text.ts:35-39 | some non-space text whose ASCII letters are at least three fifths of it |
| Text.RatioAtLeastThreeFifths | src/components/NoteEditor/text.ts:38 | the division test `letters / total >= 0.6` is the integer test `5 * letters >= 3 * total` |
| Text.ReplaceCharOne | src/components/NoteEditor/text.ts:43-47 | replacing in a one-character text replaces exactly that character, if it is the one |
| Text.ReplaceCharAbsent | src/components/NoteEditor/text.ts:43-47 | replacing a character that does not occur changes nothing |
| Text.EscapeTail | src/components/NoteEditor/text.ts:44-47 | the later replacements of the chain leave an entity produced by an earlier one alone |
| Text.EscapeChainOne | src/components/NoteEditor/text.ts:41-47 | the chain of five replacements escapes a single character to its entity |
| Text.EscapeChainAppend | src/components/NoteEditor/text.ts:41-47 | the chain distributes over concatenation |
| Text.EscapeChainIsPerChar | src/components/NoteEditor/text.ts:41-47 | the chain of five global replacements escapes each character on its own |
| Text.EscapeHtml | src/components/NoteEditor/text.ts:41-47 | the escaped text is the per-character escape and holds no `<`, `>`, `"` or `'` |
| Text.EscapeEachSafe | src/components/NoteEditor/text.ts:41-47 | the per-character escape holds no `<`, `>`, `"` or `'` |
| Text.EscapeCharSafe | src/components/NoteEditor/text.ts:41-47 | no single escaped character yields `<`, `>`, `"` or `'` |
| Text.EscapeHtmlAppend | src/components/NoteEditor/text.ts:41-47 | escaping distributes over concatenation |
| Text.UnescapeOne | src/components/NoteEditor/text.ts:41-47 | decoding an escaped character gives it back, whatever follows |
| Text.UnescapePlain | src/components/NoteEditor/text.ts:41-47 | a character other than `&` decodes to itself |
| Text.UnescapeAmp | src/components/NoteEditor/text.ts:43 | `&amp;` decodes to `&` |
| Text.UnescapeLt | src/components/NoteEditor/text.ts:44 | `&lt;` decodes to `<` |
| Text.UnescapeGt | src/components/NoteEditor/text.ts:45 | `&gt;` decodes to `>` |
| Text.UnescapeQuot | src/components/NoteEditor/text.ts:46 | `&quot;` decodes to `"` |
| Text.UnescapeApos | src/components/NoteEditor/text.ts:47 | `&#39;` decodes to `'` |
| Text.UnescapeEscapeHtml | src/components/NoteEditor/text.ts:41-47 | decoding the entities recovers the escaped text: escaping loses nothing |
| Constants.RunFrom | src/components/NoteEditor/constants.ts:23 | a greedy `[k]*` run stays inside the text |
| Constants.RunFromMeans | src/components/NoteEditor/constants.ts:23 | the run is all of its class and stops at the end or at a character outside it |
| Constants.RunFromExact | src/components/NoteEditor/constants.ts:23 | a run that cannot be extended is the greedy run |
| Constants.SectionHeaderLineAccepts | src/components/NoteEditor/constants.ts:28 | `^\s*\d+\.\s*$` accepts every line of white space, digits, `.`, white space |
| Constants.SectionHeaderLineExamples | src/components/NoteEditor/constants.ts:28 | `46.` is a section header, while `46` and `46.a` are not |
| Constants.DividerLineAccepts | src/components/NoteEditor/constants.ts:30 | the divider pattern accepts six or more rule glyphs followed only by white space |
| Constants.DividerLineStartsWithGlyphs | src/components/NoteEditor/constants.ts:30 | a divider line starts with six rule glyphs, so leading white space is refused |
| Constants.KeywordLen | src/components/NoteEditor/constants.ts:23 | the keyword alternative's match stays inside the text |
| Constants.BulletGroupLen | src/components/NoteEditor/constants.ts:23 | the optional bullet group stays inside the text |
| Constants.KeyGroupLen | src/components/NoteEditor/constants.ts:23 | the optional `key` group stays inside the text |
| Constants.LeadLen | src/components/NoteEditor/constants.ts:23 | what the header pattern takes before its keyword stays inside the text |
| Constants.BodyLen | src/components/NoteEditor/constants.ts:22-25 | a match of the header pattern, or of the sentinel pattern, after its anchor stays inside the text |
| Constants.BulletGroupAccepts | src/components/NoteEditor/constants.ts:23 | the bullet group takes exactly a bullet run, its optional `.` or `)` and the blanks after it |
| Constants.KeyGroupAccepts | src/components/NoteEditor/constants.ts:23 | the key group takes `key` in any case with its blanks, and nothing before a `v` |
| Constants.HeaderBodyAccepts | src/components/NoteEditor/constants.ts:22-25 | blanks, an optional bullet group, an optional `key`, then `vocab` in any case: the header pattern matches |
| Constants.LeadOfGroups | src/components/NoteEditor/constants.ts:23 | the lead of the header pattern is the sum of its three groups |
| Constants.MatchesCIHead | src/components/NoteEditor/constants.ts:24 | a case-insensitive match agrees with the word in its first two letters |
| Constants.HeaderBodyRefuses | src/components/NoteEditor/constants.ts:22-25 | a first character that is not a blank, a bullet, or the start of `key`, `vocab` or `từ` makes the header pattern fail |
| Constants.FindAtLineStart | src/components/NoteEditor/constants.ts:23 | the `(^\|\n)` anchored search finds a match at or after `p`, at offset 0 or at a line feed |
| Parse.PartValues | src/components/NoteEditor/parse.ts:5 | `map(Number)` reads one value per part |
| Parse.SplitOnCons | src/components/NoteEditor/parse.ts:5 | `split(":")` cuts at the first separator |
| Parse.SplitOnNone | src/components/NoteEditor/parse.ts:5 | a text without the separator is one piece |
| Parse.DigitsTrimmed | src/components/NoteEditor/parse.ts:5 | a digit string has nothing to trim |
| Parse.AllDigitsNoColon | src/components/NoteEditor/parse.ts:5 | a digit string holds no `:` |
| Parse.DigitEndsNoTrim | src/components/NoteEditor/parse.ts:5 | text beginning and ending with a digit has nothing to trim |
| Parse.SplitThree | src/components/NoteEditor/parse.ts:5 | `h:m:s` splits into its three parts |
| Parse.SplitHms | src/components/NoteEditor/parse.ts:5 | a stamp of three digit groups splits into those groups |
| Parse.SplitMs | src/components/NoteEditor/parse.ts:5 | a stamp of two digit groups splits into those groups |
| Parse.DigitPartValue | src/components/NoteEditor/parse.ts:5 | `Number` of a digit string is its decimal value |
| Parse.ReadThree | src/components/NoteEditor/parse.ts:8 | three values read as `h * 3600 + m * 60 + s` |
| Parse.ReadTwo | src/components/NoteEditor/parse.ts:7 | two values read as `m * 60 + s` |
| Parse.HmsValue | src/components/NoteEditor/parse.ts:5-8 | three digit groups read as hours, minutes and seconds |
| Parse.MsValue | src/components/NoteEditor/parse.ts:5-7 | two digit groups read as minutes and seconds |
| Parse.TimeToSecHms | src/components/NoteEditor/parse.ts:4-10 | `h:m:s` reads as `h * 3600 + m * 60 + s` |
| Parse.TimeToSecMs | src/components/NoteEditor/parse.ts:4-10 | `m:s` reads as `m * 60 + s` |
| Parse.TimeToSecNeedsColon | src/components/NoteEditor/parse.ts:6-9 | text without `:` is never a time (one part gives NaN) |
| Parse.StripCR | src/components/NoteEditor/parse.ts:20 | `replace(/\r$/, "")` drops one carriage return at the very end and nothing else |
| Parse.NewlineAt | src/components/NoteEditor/parse.ts:18 | `"\n"` occurs at `k` exactly when a line feed stands there |
| Parse.NextLineFeed | src/components/NoteEditor/parse.ts:18 | the next line feed is at or after `pos` with none before it, or -1 when there is none |
| Parse.NextLineFeedIsIndexOf | src/components/NoteEditor/parse.ts:18 | `content.indexOf("\n", pos)` is the next line feed |
| Parse.LinesFrom | src/components/NoteEditor/parse.ts:16-26 | one start per line, at least one line, the first starting at `pos` |
| Parse.HeadLine | src/components/NoteEditor/parse.ts:18-23 | the first line from `pos` is the text at its offset, followed only by a proper line end |
| Parse.LinesAtCons | src/components/NoteEditor/parse.ts:17-23 | a line at its offset put in front keeps every line at its offset |
| Parse.GapsCons | src/components/NoteEditor/parse.ts:23-24 | a line followed by a proper gap keeps the gaps proper |
| Parse.LaidCons | src/components/NoteEditor/parse.ts:16-26 | a line in front of a laid-out rest, separated by a line break, is laid out |
| Parse.LaidOne | src/components/NoteEditor/parse.ts:19-21 | a last line running to the end of the note is laid out |
| Parse.GapAtNewline | src/components/NoteEditor/parse.ts:23-24 | the head line, its `\r` and the line feed make a proper gap |
| Parse.LinesFromCut | src/components/NoteEditor/parse.ts:22-24 | each line is cut at the next line feed and the next starts after it |
| Parse.LinesFromEnd | src/components/NoteEditor/parse.ts:19-21 | without a further line feed the rest of the note is one last line |
| Parse.ChainedLaid | src/components/NoteEditor/parse.ts:16-26 | lines chained by line breaks are laid out |
| Parse.ChainedCons | src/components/NoteEditor/parse.ts:22-25 | a line in front of chained lines, separated by a line break, is chained |
| Parse.ChainedHead | src/components/NoteEditor/parse.ts:22-25 | the line up to the next line feed, then the chained lines after it, are chained |
| Parse.ChainedLast | src/components/NoteEditor/parse.ts:19-21 | the line from `pos` to the end is chained |
| Parse.LinesFromChained | src/components/NoteEditor/parse.ts:16-26 | each line is the text at its offset, followed by a line break or the end |
| Parse.LaidSpaced | src/components/NoteEditor/parse.ts:16-26 | consecutive lines leave at least one character between them |
| Parse.LinesLayout | src/components/NoteEditor/parse.ts:12-28 | the first line starts at 0, each line is the text at its offset without a line feed (and without a final `\r`), consecutive lines are separated by a line break, the last runs to the end |
| Parse.SpacedIncreasing | src/components/NoteEditor/parse.ts:12-28 | line starts strictly increase |
| Parse.SpacedChain | src/components/NoteEditor/parse.ts:12-28 | an earlier line starts strictly before a later one |
| Parse.OneLine | src/components/NoteEditor/parse.ts:19-21 | a note without line feeds is a single line at 0 |
| Parse.ComputeLines | src/components/NoteEditor/parse.ts:12-28 | the loop yields exactly the layout `LinesLayout` describes |
| Parse.LinesStep | src/components/NoteEditor/parse.ts:17-24 | one turn of the loop keeps the collected lines and the lines left to collect equal to the whole layout |
| Parse.FindHeader | src/components/NoteEditor/parse.ts:37 | `findIndex` returns -1 or an index of a line at or after the start |
| Parse.FindHeaderMeans | src/components/NoteEditor/parse.ts:37 | the index is the first header line, and -1 means no line is a header |
| Parse.LocateVocabulary | src/components/NoteEditor/parse.ts:35-45 | the layout of the note, a header index of -1 or a line, and the glossary start at the next line's start, or the note's end when the header is missing or last |
| Parse.LocateVocabularyHeader | src/components/NoteEditor/parse.ts:37 | the header is the first line the header test accepts, and no line is accepted when it is -1 |
| Parse.VocabularyLineIsHeader | src/components/NoteEditor/parse.ts:30-33 | `Vocabulary:` is a glossary header |
| Parse.SentinelLineIsHeader | src/components/NoteEditor/parse.ts:31 | a line holding `:::VOCAB:::` anywhere is a glossary header |
| Parse.HeaderBodyIsHeader | src/components/NoteEditor/parse.ts:32 | a line on which the header pattern matches from its first character is a header |
| Parse.VocabHeaderLineAccepts | src/components/NoteEditor/parse.ts:30-33 | blanks, an optional bullet run with `.`/`)` and blanks, an optional `key`, then `vocab`: a header line |
| Parse.NoSentinelWithoutColon | src/components/NoteEditor/parse.ts:31 | a line without `:` cannot hold the sentinel |
| Parse.NoLineStartAfter | src/components/NoteEditor/parse.ts:32 | with no line feed from `p` on, the anchored pattern finds nothing from `p` |
| Parse.VocabularyProseIsHeader | src/components/NoteEditor/parse.ts:30-33 | the pattern has no end anchor, so the prose line `Vocabulary is important` is a header |
| Parse.BulletKeyVocabularyIsHeader | src/components/NoteEditor/parse.ts:30-33 | `- Key Vocabulary:` is a header |
| Parse.LetterBulletVocabIsHeader | src/components/NoteEditor/parse.ts:30-33 | the letter `o` counts as a bullet, so `o vocab` is a header |
| Parse.KeywordMidLineIsNotHeader | src/components/NoteEditor/parse.ts:30-33 | `The vocabulary` is not a header: the keyword must open the line |
| Parse.MidLineBodiesRefused | src/components/NoteEditor/parse.ts:32 | neither the added line feed nor the `T` of `The vocabulary` starts a match |
| Parse.TailStart | src/components/NoteEditor/parse.ts:55 | `\s*(?:[-–—]\s*)?` taken greedily ends inside the line |
| Parse.AfterLastBreak | src/components/NoteEditor/parse.ts:55 | the text after the last line terminator holds none, which is what `(.*)$` can take |
| Parse.TailOkMeans | src/components/NoteEditor/parse.ts:55 | `(.*)$` matches from `t` exactly when no line terminator lies at or after `t` |
| Parse.ShapesAll | src/components/NoteEditor/parse.ts:55 | every way of matching `(?:\d{1,3}:)?\d{1,2}:\d{2}` is in the order tried |
| Parse.FirstOf | src/components/NoteEditor/parse.ts:55 | the first way tried for which the whole pattern matches is one of the ways listed |
| Parse.FirstOfNone | src/components/NoteEditor/parse.ts:55 | none is found exactly when no listed way matches |
| Parse.FirstShapeMeans | src/components/NoteEditor/parse.ts:55 | the way found is allowed and matches, and none is found exactly when no allowed way matches |
| Parse.MatchedStampIsTime | src/components/NoteEditor/parse.ts:57-59 | a matched stamp always reads as a time, so `isFinite` never drops a matched line |
| Parse.StampMsIsTime | src/components/NoteEditor/parse.ts:55-57 | a matched `m:ss` stamp reads as a time |
| Parse.MsShapeIsTime | src/components/NoteEditor/parse.ts:55-57 | minute digits, a colon and two second digits read as a time |
| Parse.StampHmsIsTime | src/components/NoteEditor/parse.ts:55-57 | a matched `h:m:ss` stamp reads as a time |
| Parse.HmsShapeIsTime | src/components/NoteEditor/parse.ts:55-57 | hour digits, a colon, minute digits, a colon and two second digits read as a time |
| Parse.MatchFromShape | src/components/NoteEditor/parse.ts:55 | a match is the two groups of an allowed way that matches |
| Parse.MatchTranscriptGroups | src/components/NoteEditor/parse.ts:55-57 | a match's stamp always reads as a time, and its rest holds no line terminator |
| Parse.MatchTranscriptNone | src/components/NoteEditor/parse.ts:55-56 | the pattern fails on a line exactly when no way matches after its leading white space |
| Parse.MatchedGroups | src/components/NoteEditor/parse.ts:55-57 | the groups of a matching way: the stamp is a time and the rest has no terminator |
| Parse.EntryOfMatchSome | src/components/NoteEditor/parse.ts:57-60 | a match yields an entry exactly when its rest is not blank, and the entry's text is trimmed |
| Parse.EntryOfLineSome | src/components/NoteEditor/parse.ts:54-60 | a line yields an entry exactly when the pattern matches and its rest is not blank, and the text is trimmed and non-empty |
| Parse.EntriesOf | src/components/NoteEditor/parse.ts:53-61 | no more entries than lines |
| Parse.EntriesOfTexts | src/components/NoteEditor/parse.ts:58-60 | every entry has a trimmed, non-empty text |
| Parse.TextsTrimmedPush | src/components/NoteEditor/parse.ts:60 | pushing a trimmed, non-empty text keeps every text trimmed |
| Parse.EntriesOfAppend | src/components/NoteEditor/parse.ts:53-61 | each line is read on its own: the entries of two runs of lines are those of each run |
| Parse.ParseTranscriptFromTop | src/components/NoteEditor/parse.ts:47-63 | the loop yields the entries of the lines above the header (all lines without one) |
| Parse.SearchAfterSplits | src/components/NoteEditor/parse.ts:68-72 | the search keeps the entry before `lo` at or before `t` and the entry at `hi` after it |
| Parse.FirstAfterSplits | src/components/NoteEditor/parse.ts:65-74 | the entry before the index found is at or before `t`, and the entry at it is after `t` |
| Parse.FirstIdxAfter | src/components/NoteEditor/parse.ts:65-74 | the binary search returns an index whose neighbours straddle `t`; on sorted entries it splits them into those at or before `t` and those after |
| Parse.HalvingKeeps | src/components/NoteEditor/parse.ts:68-72 | one halving keeps the entries before the range at or before `t` and the entry at its end after `t`, shrinks the range and keeps where the search ends |
| Parse.SearchEnds | src/components/NoteEditor/parse.ts:73 | once the range is empty its bound is the index found, with the entries split around `t` when they are sorted |
| Parse.SortedSplit | src/components/NoteEditor/parse.ts:65-74 | on sorted entries such a boundary splits all of them |
| Section.BoundaryStep | src/components/NoteEditor/section.ts:5-9 | one more line adds its start after the earlier ones exactly when it is a header or divider line |
| Section.BoundariesBeforeValid | src/components/NoteEditor/section.ts:5-9 | each section start names a header or divider line and that line's offset |
| Section.BoundariesBeforeOrdered | src/components/NoteEditor/section.ts:5-9 | section starts come in strictly increasing line order |
| Section.BoundariesBeforeComplete | src/components/NoteEditor/section.ts:5-9 | every header or divider line is among the section starts |
| Section.SectionStartsExact | src/components/NoteEditor/section.ts:3-11 | the section starts are exactly the header and divider lines, in line order, with their offsets |
| Section.ComputeSectionStarts | src/components/NoteEditor/section.ts:3-11 | the loop yields those section starts |
| Section.SectionStartsSorted | src/components/NoteEditor/section.ts:3-11 | on the layout of a note the section starts come in order of offset |
| Section.LastStartAtOrBefore | src/components/NoteEditor/section.ts:13-30 | the line found is one of the first `n`; every later one starts after `pos`, and it starts after `pos` only when all of them do |
| Section.LineIndexForIs | src/components/NoteEditor/section.ts:13-30 | a line starting at or before `pos`, with every later line starting after it, is the line found |
| Section.LineIndexForPos | src/components/NoteEditor/section.ts:13-30 | the binary search returns a line of the note, and on a note's layout the last line starting at or before `pos` |
| Section.LeadingAtOrBefore | src/components/NoteEditor/section.ts:40-46 | the starts the loop walks all begin at or before the anchor, and the one it stops at begins after it |
| Section.GetSectionBoundsByPos | src/components/NoteEditor/section.ts:32-48 | the loop, stopping at the first start past the anchor, yields the section bounds |
| Section.SectionBoundsNone | src/components/NoteEditor/section.ts:37 | without section starts the section is the whole text |
| Section.SectionBoundsBeforeFirst | src/components/NoteEditor/section.ts:38-45 | an anchor before the first start gives the whole text, not the part before that start |
| Section.SectionBoundsContain | src/components/NoteEditor/section.ts:32-48 | the section starts at or before its anchor and, inside the text, ends after it |
| Section.SectionBoundsSorted | src/components/NoteEditor/section.ts:32-48 | with ordered starts, a section begins at the last start at or before the anchor, and no start lies strictly inside it |
| Section.SectionBoundsMonotone | src/components/NoteEditor/section.ts:32-48 | with ordered starts, a later anchor never lies in an earlier section |
| Section.SectionBoundsIdempotent | src/components/NoteEditor/section.ts:32-48 | anchoring at a section's start finds the same section again |
| Section.ClampedLineStart | src/components/NoteEditor/section.ts:56 | the start of the line clamped into the note, or 0 for a note without lines |
| Section.SectionBoundsByLineMeans | src/components/NoteEditor/section.ts:50-58 | an index past either end gives the first or last line's section, and a line's section holds that line's start |
| Section.SectionBoundsInText | src/components/NoteEditor/section.ts:32-48 | with ordered starts inside the text, a section is a range of the text |
| Search.LongWords | src/components/NoteEditor/search.ts:10 | the words kept are at least three characters long |
| Search.SubsequencePrefix | src/components/NoteEditor/search.ts:10-11 | a prefix of the kept words is still taken from the words in order |
| Search.LongWordsExact | src/components/NoteEditor/search.ts:9-10 | the long words are exactly the words of three or more characters, in order |
| Search.TokensOfTextMeans | src/components/NoteEditor/search.ts:7-11 | at most eight tokens, each at least three characters long and without a space, taken in order from the normalised words; fewer than eight only when there are no more |
| Search.NonBlankBetween | src/components/NoteEditor/search.ts:16-18 | the glossary lines kept lie in the range |
| Search.NonBlankBetweenExact | src/components/NoteEditor/search.ts:16-18 | they are exactly the non-blank lines of the range, in strictly increasing order |
| Search.ItemsBetweenAt | src/components/NoteEditor/search.ts:16-21 | item `k` is built from the `k`-th non-blank line |
| Search.NonBlankLinesExact | src/components/NoteEditor/search.ts:15-18 | the lines indexed are exactly the non-blank lines after the header |
| Search.VocabIndexExact | src/components/NoteEditor/search.ts:13-23 | no header means no index; otherwise one item per non-blank line after the header, in order, spanning exactly that line, with its raw and normalised text |
| Search.VocabIndexOrdered | src/components/NoteEditor/search.ts:13-23 | on a note's layout the items come in strictly increasing order of offset |
| Search.BuildVocabLineIndex | src/components/NoteEditor/search.ts:13-23 | the loop yields that index |
| Search.Score | src/components/NoteEditor/search.ts:38 | a score is at most the number of tokens |
| Search.ScoreMeans | src/components/NoteEditor/search.ts:38 | zero exactly when no token is contained, full exactly when every one is |
| Search.CountContained | src/components/NoteEditor/search.ts:38 | the inner loop counts the tokens the text includes |
| Search.MaxScoreMeans | src/components/NoteEditor/search.ts:33-43 | the best score bounds every score and is one of them, unless it is 0 |
| Search.FirstBest | src/components/NoteEditor/search.ts:33-43 | a scan that keeps a position only when it beats the best so far returns -1 or a position |
| Search.FirstBestMeans | src/components/NoteEditor/search.ts:33-43 | no choice exactly when every score is 0; otherwise the first position with the largest, positive score |
| Search.PickScores | src/components/NoteEditor/search.ts:35-38 | one score per glossary item |
| Search.PickItem | src/components/NoteEditor/search.ts:32-43 | the item the scan settles on is -1 or an item |
| Search.PickItemMeans | src/components/NoteEditor/search.ts:25-45 | no item without tokens, items or an eligible item holding a token; otherwise the first eligible item with the most tokens |
| Search.PickBestVocabLineIdxDirectional | src/components/NoteEditor/search.ts:25-45 | -1 when no item is chosen; otherwise a line, and on a note's layout the line holding the chosen item's start |
| Search.PickBestVocabLineIdx | src/components/NoteEditor/search.ts:47-52 | the same scan with no floor |
| Search.InVocabHitMeans | src/components/NoteEditor/search.ts:155-164 | a stage-1 hit lies after the glossary start, is the first match there and is as long as the needle; there is none only when the normalised test or the pattern fails |
| Search.InVocabHitSome | src/components/NoteEditor/search.ts:155-163 | a stage-1 hit is the first match of the needle at or after the glossary start |
| Search.InVocabHitNone | src/components/NoteEditor/search.ts:155-164 | when the normalised test passes but stage 1 finds nothing, the needle matches nowhere after the glossary start |
| Search.InVocabFound | src/components/NoteEditor/search.ts:158-161 | a match at `idx` in the glossary is the first match at or after its start in the whole note |
| Search.InVocabMissed | src/components/NoteEditor/search.ts:158-160 | no match in the glossary is no match after its start in the note |
| Search.PastTheEnd | src/components/NoteEditor/search.ts:155 | past the end of the note the region is empty and nothing is found |
| Search.VocabLineHitMeans | src/components/NoteEditor/search.ts:166-183 | no stage-2 hit exactly when there are no tokens or no item holds one; otherwise the best item's range |
| Search.VocabLineHitNone | src/components/NoteEditor/search.ts:166-183 | no stage-2 hit exactly when there are no tokens or every item scores 0 |
| Search.AnywhereHit | src/components/NoteEditor/search.ts:185-186 | stage 3 is the first match of the needle's pattern anywhere in the note, as long as the needle |
| Search.LineScores | src/components/NoteEditor/search.ts:192-200 | one score per line before the end |
| Search.LineScoresAt | src/components/NoteEditor/search.ts:193-195 | each line's score counts the tokens its normalised text holds |
| Search.BestLineIdx | src/components/NoteEditor/search.ts:190-200 | the scan over the transcript lines returns -1 or a line before the header |
| Search.TranscriptLineHitMeans | src/components/NoteEditor/search.ts:188-206 | no stage-4 hit exactly when no line before the header holds a token; otherwise the best line's range |
| Search.TranscriptLineHitNone | src/components/NoteEditor/search.ts:190-201 | no stage-4 hit exactly when every line before the header scores 0 |
| Search.TranscriptLineHitSome | src/components/NoteEditor/search.ts:201-205 | a stage-4 hit is the range of a best-scoring line |
| Search.FirstBestLine | src/components/NoteEditor/search.ts:190-200 | the line the scan settles on is a first best line |
| Search.BestLineFromScores | src/components/NoteEditor/search.ts:196-201 | a positive top score first reached at a line makes that line a best line, and some line holds a token |
| Search.NoLineFromScores | src/components/NoteEditor/search.ts:201 | all-zero scores mean no line before the header holds a token |
| Search.BestHitSome | src/components/NoteEditor/search.ts:144-208 | a blank needle finds nothing; a match after the glossary start beats every other stage; each hit comes from the first stage that yields one |
| Search.BestHitNone | src/components/NoteEditor/search.ts:144-208 | no hit for a non-blank needle means: no stage-1 match, no item holding a token, no match anywhere, and no transcript line before the header holding a token |
| Search.BestHitNoneStages | src/components/NoteEditor/search.ts:144-208 | no hit for a non-blank needle means no stage-2 hit and, with a header, no stage-4 hit |
| Search.FirstBestPositive | src/components/NoteEditor/search.ts:39 | the scan settles on a position only with a positive best score |
| Search.ScanStep | src/components/NoteEditor/search.ts:35-43 | one more position becomes the best, with its score, only when it beats the best so far |
| Search.BestVocabItem | src/components/NoteEditor/search.ts:168-178 | the stage-2 loop picks the first best item, and only with a positive score |
| Search.BestTranscriptLine | src/components/NoteEditor/search.ts:190-200 | the stage-4 loop picks the first best line, and only with a positive score |
| Search.FindBestHit | src/components/NoteEditor/search.ts:144-208 | the method, stage by stage, computes the best hit |
| Search.VocabLineStage | src/components/NoteEditor/search.ts:166-183 | stage 2 with its loop gives the stage-2 hit |
| Search.TranscriptLineStage | src/components/NoteEditor/search.ts:188-206 | stage 4 with its loop gives the stage-4 hit |
| Search.TranscriptLineHitAt | src/components/NoteEditor/search.ts:201-205 | stage 4's hit is the range of the line the scan settles on |
| Plan.TermFromMeans | src/components/NoteEditor/search.ts:60 | the scan finds the first `.`, `?` or `!` from its start, or none |
| Plan.HasTermMeans | src/components/NoteEditor/search.ts:75 | `/[.!?]/.test` holds exactly when a terminator occurs |
| Plan.TrimAllAt | src/components/NoteEditor/search.ts:61 | each trimmed run is the trim of its run |
| Plan.TrimAllCons | src/components/NoteEditor/search.ts:61 | trimming a list trims its head and its tail |
| Plan.RunsOkCons | src/components/NoteEditor/search.ts:58-65 | a well-formed run in front of well-formed runs keeps them well formed |
| Plan.RunsMeans | src/components/NoteEditor/search.ts:58-65 | each run is not blank and holds a terminator at most at its end, and every run but the last ends with one |
| Plan.RunsAtTerm | src/components/NoteEditor/search.ts:60-63 | a run ends at the first terminator |
| Plan.RunsNoTerm | src/components/NoteEditor/search.ts:65 | without terminators the rest is one run, unless it is blank |
| Plan.TrimKeepsLast | src/components/NoteEditor/search.ts:61 | trimming keeps the last character of a text ending in a non-space |
| Plan.RunFragment | src/components/NoteEditor/search.ts:61 | a run ending with a terminator trims to a fragment ending with it |
| Plan.RestFragment | src/components/NoteEditor/search.ts:65 | a run without terminators trims to a fragment without one |
| Plan.SentencesMeans | src/components/NoteEditor/search.ts:55-67 | fragments are non-empty, start and end with a non-space, hold a terminator at most at their end, and all but the last end with one |
| Plan.SplitIntoSentencesKeepDot | src/components/NoteEditor/search.ts:55-67 | the character loop yields those fragments, and `filter(Boolean)` drops nothing |
| Plan.SplitLoopMeans | src/components/NoteEditor/search.ts:58-65 | the character loop yields the trimmed runs |
| Plan.SplitLoopIsRuns | src/components/NoteEditor/search.ts:58-65 | from any point, the loop yields the runs of what is left |
| Plan.SplitLoopAtEnd | src/components/NoteEditor/search.ts:65 | at the end, the accumulator is pushed trimmed if it is not blank |
| Plan.SplitLoopAtTerm | src/components/NoteEditor/search.ts:60-62 | at a terminator, the accumulator is pushed trimmed and reset |
| Plan.SplitLoopGoesOn | src/components/NoteEditor/search.ts:59 | any other character is appended |
| Plan.TrimHasTerm | src/components/NoteEditor/search.ts:74 | trimming neither adds nor removes a terminator |
| Plan.JoinHasTerm | src/components/NoteEditor/search.ts:74 | two texts joined by a space and trimmed hold a terminator exactly when one of them does |
| Plan.BackBufHasTerm | src/components/NoteEditor/search.ts:73-75 | the look-back buffer holds a terminator exactly when one of its texts does |
| Plan.BackStepsFrom | src/components/NoteEditor/search.ts:73-78 | the look-back stops within its limit |
| Plan.BackSteps | src/components/NoteEditor/search.ts:73-78 | it prepends at most `maxBackLines` texts and never one before the first |
| Plan.BackStepsFromMeans | src/components/NoteEditor/search.ts:73-78 | it stops at the limit, or at the first buffer holding a terminator |
| Plan.BackStepsMeans | src/components/NoteEditor/search.ts:73-78 | at most `maxBackLines` texts, never before the first, at least one when it may; no earlier buffer holds a terminator and it stops early only on one |
| Plan.BackStopsAfterOne | src/components/NoteEditor/search.ts:73-78 | when the entry itself holds a terminator, one earlier entry is prepended and the loop stops |
| Plan.PickPreviousMeans | src/components/NoteEditor/search.ts:79-82 | `""` exactly when there is no fragment; otherwise the last fragment when it ends with a terminator, else the one before it if there is one |
| Plan.BackStep | src/components/NoteEditor/search.ts:74 | one turn prepends the entry before the buffer's first |
| Plan.BackLoopIsBackBuf | src/components/NoteEditor/search.ts:73-78 | from any reachable point, the loop ends with the buffer of the computed number of texts |
| Plan.BackLoopAtLimit | src/components/NoteEditor/search.ts:73 | at the limit the loop ends |
| Plan.BackLoopStops | src/components/NoteEditor/search.ts:75 | a buffer with a terminator ends the loop |
| Plan.BackLoopGoesOn | src/components/NoteEditor/search.ts:76-77 | otherwise the loop moves one entry back |
| Plan.BackLoopStep | src/components/NoteEditor/search.ts:73-78 | one turn stops after `count + 1` texts or goes on |
| Plan.LookBackMeans | src/components/NoteEditor/search.ts:70-78 | the look-back ends with the computed earlier texts and the entry's own |
| Plan.LookBack | src/components/NoteEditor/search.ts:70-78 | the loop yields that buffer |
| Plan.GetFullPreviousSentence | src/components/NoteEditor/search.ts:69-83 | the look-back, then the fragment it picks |
| Plan.FwdBufHasTerm | src/components/NoteEditor/search.ts:96-98 | the look-forward buffer holds a terminator exactly when one of its texts does |
| Plan.FwdStepsFrom | src/components/NoteEditor/search.ts:95-101 | the look-forward stops within its limit |
| Plan.FwdSteps | src/components/NoteEditor/search.ts:95-101 | it appends at most `maxForwardLines` texts and never one past the last entry |
| Plan.FwdStepsFromMeans | src/components/NoteEditor/search.ts:95-101 | it stops at the limit, or at the first buffer holding a terminator |
| Plan.FwdStepsMeans | src/components/NoteEditor/search.ts:95-101 | at most `maxForwardLines` texts, never past the last, at least one when it may; no earlier buffer holds a terminator and it stops early only on one |
| Plan.FirstFragmentTerminated | src/components/NoteEditor/search.ts:102-103 | a text holding a terminator has a first fragment, which ends with one |
| Plan.SentencesEmpty | src/components/NoteEditor/search.ts:65-66 | a text has no fragment exactly when it is blank |
| Plan.FirstOrMeans | src/components/NoteEditor/search.ts:102-103 | the first fragment ends with a terminator whenever the text holds one, and the text itself is returned only when blank |
| Plan.TrimBlankIsEmpty | src/components/NoteEditor/search.ts:92 | a trimmed blank text is empty |
| Plan.CompleteForwardMeans | src/components/NoteEditor/search.ts:85-104 | the trimmed `initial` when it already ends with a terminator; else the buffer's first fragment, which ends with one whenever the buffer holds one |
| Plan.FwdStep | src/components/NoteEditor/search.ts:96-97 | one turn appends the next entry, trimmed |
| Plan.FwdLoopIsFwdBuf | src/components/NoteEditor/search.ts:95-101 | from any reachable point, the loop ends with the buffer of the computed number of texts |
| Plan.FwdLoopAtLimit | src/components/NoteEditor/search.ts:95 | at the limit the loop ends |
| Plan.FwdLoopStops | src/components/NoteEditor/search.ts:98 | a buffer with a terminator ends the loop |
| Plan.FwdLoopGoesOn | src/components/NoteEditor/search.ts:99-100 | otherwise the loop moves one entry on |
| Plan.FwdLoopStep | src/components/NoteEditor/search.ts:95-101 | one turn stops after `steps + 1` texts or goes on |
| Plan.LookForwardMeans | src/components/NoteEditor/search.ts:92-101 | the look-forward ends with `initial` and the computed later texts |
| Plan.LookForward | src/components/NoteEditor/search.ts:92-101 | the loop yields that buffer |
| Plan.FwdLoopUnfold | src/components/NoteEditor/search.ts:95-100 | one turn of the loop function |
| Plan.CompleteSentenceForward | src/components/NoteEditor/search.ts:85-104 | the early return, the look-forward loop, then the first fragment |
| Plan.NoSentencesOutside | src/components/NoteEditor/search.ts:107-108 | an index outside the entries reads `""`, which has no fragment |
| Plan.BuildSearchPlanForLine | src/components/NoteEditor/search.ts:106-142 | the plan is the previous-sentence item, the middle fragments, the tail item, or else the whole line |
| Plan.PreviousItem | src/components/NoteEditor/search.ts:114-121 | the first block pushes the first fragment, searched as the full previous sentence, when it ends with a terminator and is long enough |
| Plan.MiddleItems | src/components/NoteEditor/search.ts:123-128 | the loop pushes every later fragment that is long enough |
| Plan.TailItem | src/components/NoteEditor/search.ts:130-136 | the tail block pushes an unterminated last fragment, searched as its forward completion |
| Plan.LongItemsMeans | src/components/NoteEditor/search.ts:123-128 | the middle items are exactly the long-enough fragments, each searched as itself, in order |
| Plan.FragmentTrimmed | src/components/NoteEditor/search.ts:118 | a fragment is its own trim, so `first.trim().length` is its length |
| Plan.PlanHighlights | src/components/NoteEditor/search.ts:106-142 | every highlight is long enough and is a fragment of the line or the whole trimmed line |
| Plan.PrevPartHighlights | src/components/NoteEditor/search.ts:114-121 | the previous-sentence item highlights a long-enough fragment |
| Plan.MiddleHighlights | src/components/NoteEditor/search.ts:123-128 | the middle items highlight long-enough fragments |
| Plan.TailPartHighlights | src/components/NoteEditor/search.ts:130-136 | the tail item highlights a long-enough fragment |
| Plan.PlanNotEmpty | src/components/NoteEditor/search.ts:138-140 | a line whose trimmed text is long enough always yields a plan |
| Plan.PlanStartsWithPrevious | src/components/NoteEditor/search.ts:114-121 | a terminated, long-enough first fragment opens the plan, searched as the previous sentence, which is that fragment whenever the look-back finds one |
| Plan.FirstFragmentHasTerm | src/components/NoteEditor/search.ts:115 | a text whose first fragment ends with a terminator holds one |
| Plan.PlanTailTwice | src/components/NoteEditor/search.ts:123-136 | with two or more fragments and a long unterminated last one, that fragment ends the plan twice, as itself and completed |
| Plan.EndsTwice | src/components/NoteEditor/search.ts:123-136 | the plan's last two items both highlight the tail |
| Plan.LongItemsLast | src/components/NoteEditor/search.ts:123-128 | a long-enough last fragment is the last middle item |
| Plan.TailPartLast | src/components/NoteEditor/search.ts:130-136 | the tail item highlights the last fragment |
| Plan.NextLineAppendedTwice | src/components/NoteEditor/search.ts:132 | for the entries `Let us`, `go`, `home.` the tail is searched as `Let us go go home.`: the next line is appended twice |
| Render.RuleLen | src/components/NoteEditor/render.ts:7 | a rule takes six or more glyphs and trailing blanks, or nothing |
| Render.LeadingRuleAt | src/components/NoteEditor/render.ts:7 | one leading rule line ends with its line feed |
| Render.LeadingRulesEnd | src/components/NoteEditor/render.ts:7 | the leading rule lines end inside the text |
| Render.LeadingRulesEndMeans | src/components/NoteEditor/render.ts:7 | the stripped prefix is whole rule lines, and no further one follows |
| Render.BreakLen | src/components/NoteEditor/render.ts:8 | `\r?\n` takes two, one or no characters |
| Render.TrailingRulesFrom | src/components/NoteEditor/render.ts:8 | the trailing pattern's leftmost match lies at or after `p` |
| Render.TrailingRulesFromMeans | src/components/NoteEditor/render.ts:8 | the suffix removed is line-broken rule lines to the end, and no earlier offset starts one |
| Render.StripDividerLinesMeans | src/components/NoteEditor/render.ts:6-10 | stripping removes a prefix of whole rule lines, after which none starts, then the leftmost suffix of line-broken rule lines |
| Render.StripDividerLinesKeeps | src/components/NoteEditor/render.ts:6-10 | text with no leading rule line and no trailing line-broken one is unchanged |
| Render.QuoteFrom | src/components/NoteEditor/render.ts:13-16 | `search` finds the first quote of its kind at or after `p`, or -1 |
| Render.SplitFirstEnglishQuoteNone | src/components/NoteEditor/render.ts:12-25 | there is a split exactly when an opening quote comes before a closing one |
| Render.SplitFirstEnglishQuoteSome | src/components/NoteEditor/render.ts:12-25 | the parts put back together give the head, the opening quote is the first one, and the quoted text holds no closing quote |
| Render.NoTagAt | src/components/NoteEditor/render.ts:41 | a first character other than `<` starts no tag |
| Render.PlainPrefix | src/components/NoteEditor/render.ts:41 | text without `<` holds no tag, and deleting tags keeps it |
| Render.PlainText | src/components/NoteEditor/render.ts:38-41 | text without `<` counts no mark and is kept when the tags are deleted |
| Render.OpenTag | src/components/NoteEditor/render.ts:41 | `<mark>` is one opening mark, and deleting tags drops it |
| Render.CloseTag | src/components/NoteEditor/render.ts:41 | `</mark>` counts no mark, and deleting tags drops it |
| Render.MarkedMeans | src/components/NoteEditor/render.ts:38-41 | the painted pieces hold one mark, and deleting the tags leaves the escaped pieces |
| Render.EscapeThree | src/components/NoteEditor/render.ts:38-40 | escaping the three cut parts escapes the whole |
| Render.WithMarkMeans | src/components/NoteEditor/render.ts:31-42 | a painted rendering holds one mark exactly when it has a span, and deleting the tags leaves the escaped text |
| Render.PaintSpan | src/components/NoteEditor/render.ts:31-42 | the mark `paint` puts, if any, is a span of the container |
| Render.NeedleSpan | src/components/NoteEditor/render.ts:39 | `slice(idx, idx + n)` stops at the end of the container |
| Render.ShiftSome | src/components/NoteEditor/render.ts:51 | shifting a span keeps it a span |
| Render.MarkSpan | src/components/NoteEditor/render.ts:44-53 | the mark, if any, is a span of the head |
| Render.PrefixOfAppend | src/components/NoteEditor/render.ts:51 | slicing a prefix of a concatenation before the joint |
| Render.PrefixWithin | src/components/NoteEditor/render.ts:51 | a prefix that ends inside the second part |
| Render.SuffixBeyond | src/components/NoteEditor/render.ts:51 | a suffix that starts inside the second part |
| Render.SuffixOfAppend | src/components/NoteEditor/render.ts:51 | slicing a suffix of a concatenation after the joint |
| Render.MiddleBeyond | src/components/NoteEditor/render.ts:51 | a middle range beyond the first part |
| Render.MiddleWithin | src/components/NoteEditor/render.ts:51 | a middle range inside the second part |
| Render.QuotedHtmlPlain | src/components/NoteEditor/render.ts:45-51 | escaping the parts of a quote split escapes the head |
| Render.MarkBetween | src/components/NoteEditor/render.ts:51 | a mark inside the middle part is the same mark, shifted, in the whole |
| Render.QuotedHtmlMarked | src/components/NoteEditor/render.ts:45-51 | a mark inside the quoted text is the same mark, shifted, in the whole head |
| Render.MarkEnglishQuotePartial | src/components/NoteEditor/render.ts:28-54 | the empty head renders empty; otherwise the head escaped with its mark where the mark span says |
| Render.QuotedMarkInHead | src/components/NoteEditor/render.ts:44-51 | the quote split with its quoted text painted marks the head at the mark span |
| Render.MarkSpanMeans | src/components/NoteEditor/render.ts:28-54 | with a quote pair the mark lies inside the quoted text, and there is no mark exactly when painting the quoted text (or the head) finds none |
| Render.MarkEnglishQuotePartialMeans | src/components/NoteEditor/render.ts:28-54 | at most one mark, and without its tags the rendering is the escaped head |
| Render.CutAtMeans | src/components/NoteEditor/render.ts:63-78 | the head is a prefix ending in a non-space followed only by white space up to the match, and the body is the rest after the match less one leading line feed |
| Render.SplitSectionAtHeaderMeans | src/components/NoteEditor/render.ts:57-81 | no cut exactly for an empty section or one with neither sentinel nor header; the sentinel wins, and the cut is at the first match |
| Render.SectionFullHtmlMeans | src/components/NoteEditor/render.ts:84-93 | empty without a header; otherwise one mark exactly when the trimmed head is not empty and has a mark, and without its tags the rendering is the escaped head and a line feed (when the head is not empty) followed by the escaped body |
| Render.ExplainByPosMeans | src/components/NoteEditor/render.ts:95-104 | with ordered starts inside the note, the rendering is that of exactly the anchor's section, and its start is returned |
| Render.ExplainByLineMeans | src/components/NoteEditor/render.ts:106-116 | rendering by line is rendering by the clamped line's start |
| Render.RenderSnippetMeans | src/components/NoteEditor/render.ts:147-166 | at most one mark; the full rendering when it is not empty, else the manual mark when found, else the escaped snippet |
| Render.BuildContextHtml | src/components/NoteEditor/render.ts:119-167 | the rendering holds at most one mark, and on a note's layout it is the context of the hit clamped to its window and section |
| Render.StartsOrdered | src/components/NoteEditor/section.ts:13-30 | a later line starts at or after an earlier one |
| Render.LineIndexForStartsBefore | src/components/NoteEditor/section.ts:13-30 | the line holding an offset starts at or before it |
| Render.LineIndexForLineStart | src/components/NoteEditor/section.ts:13-30 | the line holding a line's start is that line |
| Render.ContextWindowClamps | src/components/NoteEditor/render.ts:130-141 | the window is within `up` lines above and `down` lines below the hit's line, not above the first glossary line and not past the last line |
| Render.ContextWindowInSection | src/components/NoteEditor/render.ts:135-141 | every line of the window starts inside the hit's section |
| Render.SectionStartOfLine | src/components/NoteEditor/render.ts:136-138 | a section starts at a line start, found again by offset |
| Engine.NoteOf | src/components/NoteEditor/useNoteEngine.ts:63-74 | what is derived keeps the note |
| Engine.NoteOfConsistent | src/components/NoteEditor/useNoteEngine.ts:63-74 | a derived note is consistent: its layout is spaced, its index matches it, its section starts are ordered and inside the note |
| Engine.Derive | src/components/NoteEditor/useNoteEngine.ts:63-74 | the content effect derives exactly the note's structures |
| Engine.EntryTexts | src/components/NoteEditor/useNoteEngine.ts:99 | one text per entry, in order |
| Engine.ActiveLineMeans | src/components/NoteEditor/useNoteEngine.ts:95 | the active line is an entry when there are any: the last at or before `t`, with the next after `t`; the first when every entry is after `t` |
| Engine.AllowedMinPos | src/components/NoteEditor/useNoteEngine.ts:102 | the floor is the larger of the glossary start and the tracked section start |
| Engine.FirstAcceptedStep | src/components/NoteEditor/useNoteEngine.ts:104-105 | each plan item is skipped when short, accepted when it yields a candidate, or passed over |
| Engine.CandidateMeans | src/components/NoteEditor/useNoteEngine.ts:107-171 | a candidate tracks a section start and has at most one mark; stage 1 is a glossary line at or after the floor; stage 2 is the hit's section at or after the floor; stage 3 is the hit's context, used only when stage 2 fails; none only when there is no hit |
| Engine.CandidateShows | src/components/NoteEditor/useNoteEngine.ts:107-171 | a candidate tracks a section start and shows at most one mark |
| Engine.ContextShows | src/components/NoteEditor/useNoteEngine.ts:156-168 | the context fallback holds at most one mark |
| Engine.ExplainedShows | src/components/NoteEditor/useNoteEngine.ts:143-148 | the section around an anchor is tracked by its start and holds at most one mark |
| Engine.CandidateFirstStage | src/components/NoteEditor/useNoteEngine.ts:107-130 | a stage-1 candidate is a glossary line at or after the floor, and its section is shown |
| Engine.CandidateHitStages | src/components/NoteEditor/useNoteEngine.ts:133-171 | stages 2 and 3 come from the best hit; stage 2 keeps to the floor and stage 3 is used only when stage 2 fails |
| Engine.SectionFullMarks | src/components/NoteEditor/render.ts:84-93 | a section rendering holds at most one mark |
| Engine.CandidateLine | src/components/NoteEditor/useNoteEngine.ts:109-117 | the stage-1 line starts with the chosen item, which lies at or after the floor |
| Engine.CandidateForward | src/components/NoteEditor/useNoteEngine.ts:117-153 | with the floor at or after the tracked section, stages 1 and 2 never track an earlier section |
| Engine.CandidateStage3Regresses | src/components/NoteEditor/useNoteEngine.ts:155-171 | stage 3 ignores the floor: when the hit's section renders, a stage-3 candidate tracks a section below the floor |
| Engine.FirstAcceptedMeans | src/components/NoteEditor/useNoteEngine.ts:104-173 | the plan's choice is the candidate of one of its long-enough items, and none exactly when none yields one |
| Engine.TickForward | src/components/NoteEditor/useNoteEngine.ts:81-175 | a tick's choice tracks a section start with at most one mark, and through stage 1 or 2 never goes below the floor or the tracked section |
| Engine.TryCandidate | src/components/NoteEditor/useNoteEngine.ts:107-171 | one plan item tried with the binary searches and the section loop gives the candidate |
| Engine.ChooseFromPlan | src/components/NoteEditor/useNoteEngine.ts:104-173 | the plan loop skips short items and stops at the first candidate |
| Engine.TickStage3Regresses | src/components/NoteEditor/useNoteEngine.ts:155-171 | a tick's context fallback can go back to a section below the tracked one |
| Engine.TickPlan | src/components/NoteEditor/useNoteEngine.ts:95-99 | the tick's plan is the plan of the active line |
| Engine.TickSearch | src/components/NoteEditor/useNoteEngine.ts:98-173 | the tick's search gives its choice, which tracks a section start and has at most one mark |
| Engine.NoteEngine.constructor | src/components/NoteEditor/useNoteEngine.ts:39-60 | a mounted engine holds an empty note, shows nothing, tracks nothing, and its clock is 0 |
| Engine.NoteEngine.Rebuild | src/components/NoteEditor/useNoteEngine.ts:63-78 | the content effect derives everything from the note and clears the viewer and the tracked section |
| Engine.NoteEngine.Load | src/components/NoteEditor/useNoteEngine.ts:65-77 | the derived structures are stored, the viewer and tracked section cleared |
| Engine.NoteEngine.Show | src/components/NoteEditor/useNoteEngine.ts:126-127 | the viewer shows the candidate and tracks its section, keeping the engine valid |
| Engine.NoteEngine.OnContentChanged | src/components/NoteEditor/useNoteEngine.ts:63-78 | a new note is derived afresh with the viewer and tracked section cleared; the same note changes nothing |
| Engine.NoteEngine.Clear | src/components/NoteEditor/useNoteEngine.ts:244-248 | an empty note, nothing shown, nothing tracked |
| Engine.NoteEngine.OnTick | src/components/NoteEditor/useNoteEngine.ts:81-175 | the clock moves to `t`; without entries nothing else changes; a seek back past the threshold only forgets the tracked section; otherwise the tick's choice is shown and tracked, or nothing changes |
| Engine.NoteEngine.SetClock | src/components/NoteEditor/useNoteEngine.ts:82-83 | the clock moves to `t`; the note, the viewer and the tracked section are unchanged and the engine stays valid |
| Engine.NoteEngine.Forget | src/components/NoteEditor/useNoteEngine.ts:88-92 | a seek back forgets the tracked section and keeps the viewer and the note |
| Engine.NoteEngine.Follow | src/components/NoteEditor/useNoteEngine.ts:95-174 | the tick's choice from the tracked section is shown and tracked; without one the viewer and the tracked section are kept |
| Engine.NoteEngine.DoSearch | src/components/NoteEditor/useNoteEngine.ts:178-242 | a blank term does nothing; otherwise the trimmed term's candidate, without a floor, is shown and tracked, or nothing changes and the outcome is not found |

## Left out

- Lower: lower-cases ASCII letters only, where `toLowerCase` folds all of Unicode. As a result `TỪ VỰNG:` is not a
  glossary header in the model, and `findIndexNormalized("café", "CAFÉ")` is -1 in the model but 0 in the source.
  A Unicode case table is out of scope.
- LowerChar: same limit as `Lower`: only `A`–`Z` are folded.
- Normalize: same limit, through `Lower`.
- NormForSearch: same limit, through `Lower`.
- FindIndexNormalized: the `i` flag of the needle's pattern is matched with the same ASCII folding.
- IsVocabHeaderLine: the `i` flag of the header pattern is matched with the same ASCII folding, so a capital `Ừ` or
  `Ự` is not accepted in `từ vựng`.
- BodyLen: same limit as `IsVocabHeaderLine`.
- MatchVocabHeader: same limit as `IsVocabHeaderLine`.
- IsAsciiSentence: counts Unicode code points, where JavaScript counts UTF-16 units. The two differ for characters
  outside the Basic Multilingual Plane: `ab😀` is an English sentence in the model (2 of 3) but not in the source
  (2 of 4).
- ComputeLines: offsets are code points, not UTF-16 units. For `😀\nx` the model's starts are `[0, 2]` and the
  source's are `[0, 3]`. Every offset and length in the model (`Starts`, `vocabStart`, hit spans, section bounds,
  the `MIN_SEARCH_LEN` checks) counts code points in the same way.
- TimeToSec: reads only non-empty decimal digit parts, and its result is a natural number. `Number` also accepts
  `1.5`, `1e1`, `0x1F` and a sign, so `1.5:00` (90), `1e1:00` (600), `0x1F:00` (1860) and `-1:30` (-30) are times
  in the source but not in the model. The transcript pattern captures only digit groups, so these forms never
  reach `timeToSec` from the engine.
- ForwardDefined: `completeSentenceForward` with `idxStart < -1` and a loop that runs reads `entries[i].text` at a
  negative index and throws a `TypeError`. The model excludes that call instead of modelling the exception. The
  engine always calls it with a valid index.
- GetFullPreviousSentence: requires `idx <= |texts|`. A larger index makes the source read `.text` of `undefined`
  and throw. The engine always passes an entry index.
- FindBestHit: requires as many starts as lines and a header index below the line count, which is what
  `locateVocabulary` always yields. The source's guards for missing lines are not modelled.
- The white-space class `\s` is modelled as a fixed set of characters (ASCII white space, no-break space, the
  line and paragraph separators, the Unicode space separators and the byte-order mark), not as the full Unicode
  property.
- JavaScript numbers: offsets, indices and line numbers are unbounded integers, and the playback clock and
  `SEEK_BACK_THRESHOLD` are exact reals. Floating-point rounding is not modelled.
- React scheduling: effects run when the model's methods are called. The hook re-runs the tick effect after a
  content change (its dependencies include `content` and everything derived from it); the model leaves that to
  the caller, who calls `OnTick` again. Batched state updates and re-renders are not modelled.
- `nextIdx`: the state `setNextIdx` writes (useNoteEngine.ts:75, 89, 96) is read only by the debug panel.
  `FirstIdxAfter` models the search it stores.
- `debugInfo`, `showDebug` and `viewerEmptyText`: the debug panel and the empty-viewer texts are presentation
  only.
- The `alert` of a failed manual search is I/O. `DoSearch` returns the `NotFound` outcome in its place.
- `NOTE_PLACEHOLDER` is display text and is not modelled.
- NoteEditor.tsx, the component that renders the viewer and feeds the hook the clock and the note, is not part
  of this model.
