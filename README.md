# trax-web transcript editor core, in Dafny

trax-web is a browser editor for correcting speech transcripts against their
audio. A task is a stretch of timed words (`Word { text, timing, speaker }`),
split into a read-only segment before, an editable segment and a read-only
segment after. The editor does the following:

- It lays the words of each speaker turn out as one string. Punctuation is
  glued to the word before it.
- For every real word it records which characters it occupies and when it
  is spoken (a `Timing { chars, time }`).
- During playback it splits those timings into "before", "now" and "after"
  to highlight the text.
- On a click it maps a character offset back to an audio time.

Around this core sit:

- the session reducer;
- the wire decoders for tasks, glossaries and QT paragraphs;
- the Python mock server, which cuts random tasks out of a word list;
- the script that flattens QT utterances into that word list;
- the string helpers of the speaker select box;
- the search and append logic of the glossary panel.

## Modules

| module | models |
|---|---|
| `Ranges`, `Text` | the closed interval predicates and the punctuation test |
| `Models` | the `Word`, `Segment` and `Task` records |
| `Alignment` | `createContent`. It is a method with a loop, proved against the left-recursive functions `TextUpTo` and `TimingsUpTo`. |
| `Blocks` | `createBlocks`. It groups words into speaker turns, then builds one Block per turn. |
| `Decorate` | `splitTimings`, `rangeForTimings`, `handleDecorate` and the click-to-seek lookup |
| `Session` | the reducer, its initial state and the dispatches of `requestNewTask` |
| `Responses`, `Speech` | `toWord`, `toTask`, `toGlossary` and `decodeParagraph`, plus encoders for the round trips |
| `ApiManager` | `WordList` and `Manager` of the mock server. The random draws and the uuid are parameters. |
| `ConvertQt` | `convert_utts_to_wordlist`, over word objects changed in place |
| `Strings` | ASCII `toLowerCase`, `indexOf` and decimal numerals |
| `SpeakerBox` | `filterSpeaker`, `formatDuration`, `escapeRegExpChars` and the token loop of `highlightText` |
| `GlossaryPanel` | the `items` filter, `showAddGlossaryTerm` and the append in `onSaveTermClick` |
| `Seqs`, `Wrappers` | generic helpers: `findIndex`, flattening, subsequences and `Option` |

Modelling conventions:

- Times are `real`. The code only compares them and adds `0.01`.
- Character offsets are integers. They count Dafny characters, which are Unicode scalar values. JavaScript's `.length`, `slice` and `lastIndex` count UTF-16 code units. The two agree for text within the Basic Multilingual Plane (see "## Left out").
- JavaScript `null` is `Option.None`.
- The only throwing path modelled as `None` is `handleDecorate`. The other paths where the source throws are excluded by a `requires` or left out; "## Left out" lists them.

## Model

| member | source | states |
|---|---|---|
| `Ranges.Contains` | src/utils/range.ts:7-9 | a range that contains some point is well formed (`start <= end`). `ContainsIsClosed` and `Trichotomy` state the closed interval. |
| `Ranges.Before` | src/utils/range.ts:10-12 | a range that lies before a point does not contain it |
| `Ranges.After` | src/utils/range.ts:13-15 | a range that lies after a point does not contain it, and a well-formed one is then not before it either |
| `Ranges.ContainsIsClosed` | src/utils/range.ts:7-9 | `contains` is closed: both end points of a well-formed range are inside it, and neither is before or after it |
| `Ranges.Trichotomy` | src/utils/range.ts:7-15 | for `start <= end`, exactly one of `before`, `contains` and `after` holds at any point |
| `Text.IsPunctuation` | src/utils/text.ts:3-5 | the length-1 test and the test on the single character. The contract that this is exactly membership in the list is `PunctuationIsMembership`. |
| `Text.PunctuationsAreSingleCharacters` | src/utils/text.ts:1 | every listed mark is one character long |
| `Text.ListedMarksArePunctuation` | src/utils/text.ts:1-5 | each of `. , ! ? ; :` is punctuation |
| `Text.OtherLengthsAreNotPunctuation` | src/utils/text.ts:4 | no string whose length is not 1 is punctuation |
| `Text.UnlistedCharactersAreNotPunctuation` | src/utils/text.ts:4 | `-`, `a`, `...` and the empty string are not punctuation |
| `Text.PunctuationIsMembership` | src/utils/text.ts:1-5 | the answer is exactly membership in the list |
| `Alignment.CreateContent` | src/components/Editor/Editor.tsx:43-77 | the loop's text and timings are the flat text and timing list. Timing `k` is the Timing of the `k`-th non-punctuation word, and the flag is passed through. |
| `Alignment.WordIndicesExact` | src/components/Editor/Editor.tsx:47-53 | exactly the non-punctuation words get an entry, in increasing word order |
| `Alignment.TimingsFollowWords` | src/components/Editor/Editor.tsx:53-62 | after `n` words, there is one timing per non-punctuation word among them, in order. Each timing is that word's character span and audio timing. |
| `Alignment.OneTimingPerWord` | src/components/Editor/Editor.tsx:47-62 | one timing per non-punctuation word, none for punctuation, in word order, and each timing's `time` is its word's `timing` |
| `Alignment.TextPrefix` | src/components/Editor/Editor.tsx:64-68 | the text only grows: the text after `i` words is a prefix of the text after `j >= i` words |
| `Alignment.WordInText` | src/components/Editor/Editor.tsx:54-68 | word `i` occupies the text from its offset for its length, and a separating space follows it when one is due |
| `Alignment.PunctuationAttached` | src/components/Editor/Editor.tsx:54-68 | a punctuation word follows the previous word with no space, and that word's span takes in the mark |
| `Alignment.SpanInText` | src/components/Editor/Editor.tsx:54-59 | every span `[start, start + length]` ends within the text |
| `Alignment.OffsetMonotone` | src/components/Editor/Editor.tsx:57 | word offsets never decrease along the list |
| `Alignment.OffsetIsLength` | src/components/Editor/Editor.tsx:57-68 | a word's offset is the length of the text built before it |
| `Alignment.StepBeforePunct` | src/components/Editor/Editor.tsx:50-68 | a punctuation word is one character long and starts right where the previous word ends |
| `Alignment.StepBeforeWord` | src/components/Editor/Editor.tsx:64-68 | any other word starts one space after the previous word ends |
| `Alignment.SpanBeforeLaterWord` | src/components/Editor/Editor.tsx:54-68 | a word's span ends strictly before the offset of any later non-punctuation word |
| `Alignment.SpanBeforeLaterWordPunct` | src/components/Editor/Editor.tsx:54-68 | a span stretched over the following punctuation mark still ends before the next non-punctuation word |
| `Alignment.TimingsOrdered` | src/components/Editor/Editor.tsx:47-69 | every span lies within the text. Each span ends before the next begins, so starts are strictly increasing. |
| `Alignment.TimingCoversWord` | src/components/Editor/Editor.tsx:54-59 | the text from timing `k`'s start, for the word's length, is exactly that word |
| `Alignment.WordTexts` | src/components/Editor/Editor.tsx:64 | the word texts, one per word, in order |
| `Alignment.JoinSpacesSnoc` | src/components/Editor/Editor.tsx:64-68 | joining with single spaces extends by one space and the new text |
| `Alignment.TextUpToJoins` | src/components/Editor/Editor.tsx:64-68 | without punctuation, the text after `n` words is those words joined by single spaces, plus a trailing space unless the list is done |
| `Alignment.FlatTextWithoutPunctuation` | src/components/Editor/Editor.tsx:64-68 | with no punctuation words, the text is the words joined by single spaces |
| `Blocks.Paragraphs` | src/components/Editor/Editor.tsx:80-87 | the groups are non-empty and flatten back to the words. Only a word with a truthy speaker opens a new group; the first group is the exception. It is empty exactly when the input is. |
| `Blocks.OpenParagraph` | src/components/Editor/Editor.tsx:81-85 | pushing a new group for the first word, or for a word with a speaker, keeps the grouping valid |
| `Blocks.ExtendParagraph` | src/components/Editor/Editor.tsx:85 | appending a word without a speaker to the last group keeps the grouping valid |
| `Blocks.CreateBlocks` | src/components/Editor/Editor.tsx:79-94 | there is one Block per paragraph, and empty input gives `[]`. Each block carries the flag and exactly one Content, built from its paragraph's words. |
| `Blocks.ParagraphStarts` | src/components/Editor/Editor.tsx:80-87 | paragraph `p` starts right after the earlier paragraphs' words, and (past the first) at a word with a truthy speaker |
| `Blocks.SpeakerOpensParagraph` | src/components/Editor/Editor.tsx:81-83 | a word with a truthy speaker is always the first word of its paragraph |
| `Blocks.ParagraphingUnique` | src/components/Editor/Editor.tsx:80-87 | the grouping is determined by the words: two groupings with the same properties are equal |
| `Blocks.EmptyParagraphing` | src/components/Editor/Editor.tsx:80-87 | a grouping is empty exactly when the words are |
| `Blocks.LastParagraphLength` | src/components/Editor/Editor.tsx:80-87 | the last paragraph starts at index 0 or at a word with a speaker, and no later word has one |
| `Blocks.DropLastParagraph` | src/components/Editor/Editor.tsx:80-87 | without its last group, a grouping is the grouping of the words before that group, and the last group is the rest of the words |
| `Decorate.SplitTimings` | src/components/Editor/Editor.tsx:96-117 | the three parts concatenate to the input, and `now` has at most one entry. Every `before` entry ends before `t`, and a `now` entry contains `t`. With no `now`, the first `after` entry starts after `t`. If every entry ends before `t`, all of them are `before`. |
| `Decorate.SplitAt` | src/components/Editor/Editor.tsx:103-116 | given the index `findIndex` returns, the three branches give parts that concatenate to the input, with the same before, now and after guarantees as `splitTimings` |
| `Decorate.SeekTime` | src/components/Editor/Editor.tsx:226-237 | there is a seek exactly when the first span with `end >= offset` contains the offset, and it goes to that word's start plus 0.01 |
| `Decorate.RangeForTimings` | src/components/Editor/Editor.tsx:119-131 | the decoration keeps the path and the highlight, and an empty list gives the empty range at offset 0. `BucketWithinText` states that the range of consecutive timings lies within the text. |
| `Decorate.HandleDecorate` | src/components/Editor/Editor.tsx:133-167 | the result is missing (the source throws) exactly for a Content without timings. Any other node gets `[]`. A Content gets one or three decorations, all on the node's path. `DecorateOutcomes` states which decorations they are in each case. |
| `Decorate.DecorateOutcomes` | src/components/Editor/Editor.tsx:119-167 | a Content with timings always decorates. If the first start is after `t`, the result is one `after` range over the first start to the last end. If the last end is before `t`, it is one such `before` range. Otherwise it is exactly the `rangeForTimings` of the split's before, now and after parts, labelled before, now and after, in that order. |
| `Decorate.OnlyContentIsDecorated` | src/components/Editor/Editor.tsx:133-136 | nodes that are not Content get no decorations |
| `Decorate.NowHighlightsPlayingWord` | src/components/Editor/Editor.tsx:133-167 | when word `k` is playing and the earlier words ended, `now` is exactly word `k`'s span. `before` covers the earlier words, and `after` covers the later ones. |
| `Decorate.DecorationsWithinText` | src/components/Editor/Editor.tsx:119-167 | for a Content built by `createContent`, every decoration lies within its text and on its path |
| `Decorate.DecorationsWithinSpans` | src/components/Editor/Editor.tsx:119-167 | for any Content whose spans lie in its text with increasing starts, every decoration lies within the text and on the node's path |
| `Decorate.DecorationsAreBuckets` | src/components/Editor/Editor.tsx:133-167 | every decoration is the range of a run of consecutive timings: all of them, or the before, now or after part of the split |
| `Decorate.BucketWithinText` | src/components/Editor/Editor.tsx:119-131 | when the spans lie in the text with increasing starts, the range of any run of consecutive timings lies within the text, anchor before focus |
| `Decorate.ClickSeeksToClickedWord` | src/components/Editor/Editor.tsx:226-234 | a click inside word `k`'s span seeks to word `k`'s start plus 0.01 |
| `Decorate.ClickOutsideSpansDoesNotSeek` | src/components/Editor/Editor.tsx:227-237 | a click in no span does not seek |
| `Decorate.PunctuationOnlyTurnBreaksDecorate` | src/components/Editor/Editor.tsx:80-139 | the words `a` (speaker B) and `.` (speaker A) have exactly one grouping, `[[a], [.]]`. The Content built from the turn `[.]` has text `"."` and no timings, and decorating it fails. |
| `Decorate.DecorateGuarded` | src/components/Editor/Editor.tsx:133-167 | the total decorate: `[]` for a Content without timings, the source's result everywhere else |
| `Decorate.DecorateGuardedIsTotal` | src/components/Editor/Editor.tsx:138-139 | the source's decorate fails exactly on a Content without timings |
| `Decorate.DecorateExample` | src/components/Editor/Editor.tsx:96-167 | "the cat" at 0.7 s: `[0,3]` before, `[4,7]` now, and an empty after |
| `Decorate.SeekBoundaryExample` | src/components/Editor/Editor.tsx:227-234 | the span end is clickable (closed interval), and one past it is not |
| `Session.Reducer` | src/components/Session/Session.tsx:24-34 | `set-task` gives `inprogress` with exactly that task, and every other action gives `idle` |
| `Session.ReducerIgnoresState` | src/components/Session/Session.tsx:24-34 | the result does not depend on the prior state |
| `Session.LastActionDecides` | src/components/Session/Session.tsx:24-34 | after any non-empty run of dispatches, the state is decided by the last action alone |
| `Session.FromInitialState` | src/components/Session/Session.tsx:103 | a session starts idle (the `useReducer` initial state). After any run of dispatches it is editing exactly when the last one was `set-task`, and then with that task. |
| `Session.RequestNewTask` | src/components/Session/Session.tsx:36-41 | the state is `idle` while the task is fetched, and then `inprogress` with the fetched task |
| `Session.LeavingEditing` | src/components/Session/Session.tsx:33 | publishing or requesting drops a task in progress |
| `Responses.ToWord` | src/network/responses.ts:46-53 | `word` becomes `text`, `start`/`end` become `timing`, and `speaker` is copied |
| `Responses.ToWords` | src/network/responses.ts:60-74 | the mapped list has the same length and order |
| `Responses.ToSegment` | src/network/responses.ts:59-65 | a segment's words are mapped one to one, and its timing is its `start`/`end` |
| `Responses.ToTask` | src/network/responses.ts:55-85 | `body` becomes `editable`, `before` and `after` keep their names, and id, type and timing are copied |
| `Responses.ToGlossary` | src/network/responses.ts:87-89 | one term per entry, same order, each the entry's `text` |
| `Responses.DecodeEncodeTask` | src/network/responses.ts:46-85 | decoding the encoding of a task gives the task back |
| `Responses.EncodeDecodeTask` | src/network/responses.ts:46-85 | encoding the decoding of a wire task gives the wire task back: no field is lost |
| `Speech.DecodeWord` | src/models/speech.ts:38 | a word's text and timing come from `word`, `start` and `end` |
| `Speech.DecodeParagraph` | src/models/speech.ts:31-39 | `id` is `utt_id`, `speakerId` is `spk_id`, and `timing` is the utterance span. The words are mapped one to one, in order. |
| `Speech.CorrectorKeyIgnored` | src/models/speech.ts:31-39 | `corrector_key` has no influence on the result |
| `ApiManager.Slice` | api-server/manager.py:89 | Python slicing with non-negative bounds: clamped to the list, empty when `a >= b`, element `k` is `s[a + k]`. The before and after slices use it too. |
| `ApiManager.NearIndexUnique` | api-server/manager.py:38-43 | the word-near-time index is unique |
| `ApiManager.ExactStartNotInside` | api-server/manager.py:40 | a time equal to a word's start is neither before that word nor inside it |
| `ApiManager.NearIndicesAlmostMonotone` | api-server/manager.py:38-43 | on ordered words, a later time never selects an index more than one below an earlier time's |
| `ApiManager.ExactStartSkipsWord` | api-server/manager.py:38-43 | at exactly 2.0, word "b" (2.0-3.0) is skipped for the next word, while 2.5 selects "b" |
| `ApiManager.WordList.constructor` | api-server/manager.py:24-25 | the list holds the given words |
| `ApiManager.WordList.StartTime` | api-server/manager.py:27-29 | the first word's start |
| `ApiManager.WordList.EndTime` | api-server/manager.py:31-33 | the last word's end |
| `ApiManager.WordList.WordNearTime` | api-server/manager.py:38-43 | the index is the first whose word is near `time`, strictly, or the last index when none is. It is always a valid index. |
| `ApiManager.BeforeTime` | api-server/manager.py:66-68 | for a gap drawn by `random.uniform(7, 15)`, the time is 7 to 15 s before the start, clamped at 0 |
| `ApiManager.AfterTime` | api-server/manager.py:74-76 | for a gap drawn by `random.uniform(7, 15)`, the time is 7 to 15 s after the end, clamped at the list's end time |
| `ApiManager.Manager.constructor` | api-server/manager.py:62-63 | the manager holds the given word list |
| `ApiManager.Manager.GetBeforeText` | api-server/manager.py:65-71 | the words run from the one near the before time up to, not including, the editable start |
| `ApiManager.Manager.GetAfterText` | api-server/manager.py:73-79 | the words run from just after the editable end up to, not including, the word near the after time |
| `ApiManager.Manager.GetRandomTask` | api-server/manager.py:81-100 | the start and end indices are the words near the drawn start and near start plus the drawn duration. The editable words run from the start index to the end index, inclusive. `editable_start` and `editable_end` are the start word's start and the end word's end. The before and after texts come from their scans, and the id is passed in. On ordered words, before, editable and after come from disjoint index ranges, in order. |
| `ConvertQt.WordLists` | scripts/convert_qt_input.py:12-13 | the utterances' word lists, in order |
| `ConvertQt.ConvertUttsToWordlist` | scripts/convert_qt_input.py:10-18 | the output is the concatenation of the word lists and holds the input objects themselves. Each non-empty utterance's first word now has `speaker = spk_id`, and every other word keeps its speaker. |
| `ConvertQt.AppendUtterance` | scripts/convert_qt_input.py:13-16 | one utterance's words are appended in order, and the first is stamped |
| `ConvertQt.FirstWordsDistinct` | scripts/convert_qt_input.py:14-15 | the word stamped for one utterance is no other utterance's first word, so a later stamp cannot overwrite it |
| `ConvertQt.LaterWordsNotFirst` | scripts/convert_qt_input.py:13-16 | a word after the first of its utterance is never stamped, so it keeps its speaker |
| `ConvertQt.OutputLength` | scripts/convert_qt_input.py:10-18 | the output length is the sum of the utterance lengths |
| `ConvertQt.OutputPosition` | scripts/convert_qt_input.py:12-17 | word `i` of utterance `u` comes right after all words of the earlier utterances |
| `Strings.ToLower` | src/components/Editor/nodes/SpeakerBoxView.tsx:89-90 | same length; ASCII capitals become small letters, and every other character is unchanged |
| `Strings.ToLowerIdempotent` | src/components/Editor/nodes/SpeakerBoxView.tsx:89-90 | lower-casing twice is lower-casing once |
| `Strings.IndexOf` | src/components/Editor/nodes/SpeakerBoxView.tsx:95 | the first index where the query occurs, or -1 when it occurs nowhere |
| `Strings.EmptyOccursFirst` | src/components/Editor/nodes/SpeakerBoxView.tsx:95 | the empty string occurs at index 0 |
| `Strings.NatToString` | src/components/Editor/nodes/SpeakerBoxView.tsx:102 | the decimal form is digits only, with no leading zero |
| `Strings.IntToString` | src/components/Editor/nodes/SpeakerBoxView.tsx:102 | a non-negative number gives its decimal numeral. A negative number gives a minus sign before the numeral of its magnitude. Reading the digits back gives the value. |
| `Strings.ParseNatToString` | src/components/Editor/nodes/SpeakerBoxView.tsx:102 | reading the decimal form back gives the number |
| `SpeakerBox.FilterSpeaker` | src/components/Editor/nodes/SpeakerBoxView.tsx:88-97 | exact mode is case-insensitive equality; otherwise a case-insensitive substring test |
| `SpeakerBox.EmptyQueryKeepsAll` | src/components/Editor/nodes/SpeakerBoxView.tsx:94-96 | the empty query keeps every speaker in non-exact mode |
| `SpeakerBox.ExactImpliesSubstring` | src/components/Editor/nodes/SpeakerBoxView.tsx:88-97 | a speaker kept in exact mode is kept in non-exact mode |
| `SpeakerBox.Floor` | src/components/Editor/nodes/SpeakerBoxView.tsx:100-101 | `Math.floor` is the integer at or below `x`, less than one below |
| `SpeakerBox.Rem60` | src/components/Editor/nodes/SpeakerBoxView.tsx:101 | the JavaScript remainder has the dividend's sign, magnitude below 60, and differs from it by a multiple of 60 |
| `SpeakerBox.FormatDuration` | src/components/Editor/nodes/SpeakerBoxView.tsx:99-103 | `minutes:seconds`, neither padded. Its contract is stated by `FormatDurationReadsBack` and `DurationPartsRecombine`. |
| `SpeakerBox.DurationPartsRecombine` | src/components/Editor/nodes/SpeakerBoxView.tsx:99-103 | for `d >= 0`: seconds in 0..59 and `minutes * 60 + seconds == floor(d)` |
| `SpeakerBox.FormatDurationReadsBack` | src/components/Editor/nodes/SpeakerBoxView.tsx:99-103 | the label is the minutes as a decimal numeral (digits only, no leading zero), a colon, then the seconds as such a numeral. Each reads back as its value. |
| `SpeakerBox.FormatDurationExample` | src/components/Editor/nodes/SpeakerBoxView.tsx:99-103 | 65 s reads `1:5` (no zero padding) |
| `SpeakerBox.EscapeRegExpChars` | src/components/Editor/nodes/SpeakerBoxView.tsx:23-25 | the output length is the input length plus the number of special characters |
| `SpeakerBox.EscapeOneCharacter` | src/components/Editor/nodes/SpeakerBoxView.tsx:23-25 | a special character gets one backslash in front, and any other character is unchanged |
| `SpeakerBox.EscapeConcat` | src/components/Editor/nodes/SpeakerBoxView.tsx:23-25 | the replacement works character by character: escaping a concatenation concatenates the escapes. With `EscapeOneCharacter`, this fixes the output. |
| `SpeakerBox.UnescapeEscape` | src/components/Editor/nodes/SpeakerBoxView.tsx:23-25 | escaping loses nothing: reading the backslashes back gives the input |
| `SpeakerBox.PlainTextUnescaped` | src/components/Editor/nodes/SpeakerBoxView.tsx:23-25 | text with no special characters is unchanged |
| `SpeakerBox.WordPrefix` | src/components/Editor/nodes/SpeakerBoxView.tsx:30 | the longest prefix without whitespace, and whitespace follows it if anything does |
| `SpeakerBox.QueryWords` | src/components/Editor/nodes/SpeakerBoxView.tsx:29-31 | every query word is non-empty and free of whitespace |
| `SpeakerBox.NoWordsIffBlank` | src/components/Editor/nodes/SpeakerBoxView.tsx:29-35 | a query has no words exactly when it is all whitespace |
| `SpeakerBox.QueryWordsJoin` | src/components/Editor/nodes/SpeakerBoxView.tsx:29-31 | the query words, read one after another, are the query with its whitespace removed: the split loses and adds no other character |
| `SpeakerBox.HighlightText` | src/components/Editor/nodes/SpeakerBoxView.tsx:27-56 | with no query words the result is `[text]`. Otherwise the tokens render `text` exactly, no plain token is empty, and the `<strong>` tokens are the matched substrings in order, keyed by the match end. The tokens are exactly those the loop pushes for the matches, followed by the non-empty rest of the text. |
| `SpeakerBox.StepTokensRender` | src/components/Editor/nodes/SpeakerBoxView.tsx:44-49 | one match's tokens, a non-empty gap and then the `<strong>`, extend the rendered text to the match end and add the match's `<strong>` |
| `SpeakerBox.TokensUpToRender` | src/components/Editor/nodes/SpeakerBoxView.tsx:38-50 | after `n` matches the tokens render the text up to the end of match `n - 1`, hold no empty plain token, and their `<strong>` tokens are those matches in order |
| `SpeakerBox.AppendRest` | src/components/Editor/nodes/SpeakerBoxView.tsx:51-54 | pushing the non-empty rest completes the rendering and adds no `<strong>` |
| `GlossaryPanel.FilterTerms` | src/components/GlossaryPanel/GlossaryPanel.tsx:157 | the kept terms are the terms whose lower-cased text contains the lower-cased search. Each such term is kept as often as it occurs in the input, and no other term is kept. |
| `GlossaryPanel.FilterIsSubsequence` | src/components/GlossaryPanel/GlossaryPanel.tsx:157 | the filter keeps the original order |
| `GlossaryPanel.Items` | src/components/GlossaryPanel/GlossaryPanel.tsx:152-159 | `[]` until the glossary is loaded. With a null or empty search, all terms; otherwise the matching terms, each as often as it occurs. |
| `GlossaryPanel.ItemsAreSubsequence` | src/components/GlossaryPanel/GlossaryPanel.tsx:152-159 | the items are a subsequence of the terms |
| `GlossaryPanel.ShowAddGlossaryTerm` | src/components/GlossaryPanel/GlossaryPanel.tsx:145-146 | shown exactly when the search is non-empty, the glossary is loaded and no term's text equals the search, case-sensitively |
| `GlossaryPanel.SavedTermHidesAdd` | src/components/GlossaryPanel/GlossaryPanel.tsx:138-146 | after saving a term with the searched text, "Add term" is no longer offered |
| `GlossaryPanel.TermArray.Push` | src/components/GlossaryPanel/GlossaryPanel.tsx:140 | `push` appends in place |
| `GlossaryPanel.Panel.constructor` | src/components/GlossaryPanel/GlossaryPanel.tsx:114 | the glossary starts unloaded |
| `GlossaryPanel.Panel.Terms` | src/components/GlossaryPanel/GlossaryPanel.tsx:152-155 | terms are present exactly when the glossary is loaded |
| `GlossaryPanel.Panel.OnTermSaved` | src/components/GlossaryPanel/GlossaryPanel.tsx:137-143 | the saved term is pushed onto the same array (a fresh one when unloaded), last, and earlier terms are unchanged |

## Left out

- `Alignment.CreateContent`, `Decorate.SeekTime` and `SpeakerBox.HighlightText` count offsets in Dafny characters, which are Unicode scalar values. JavaScript counts UTF-16 code units. A character outside the Basic Multilingual Plane, such as an emoji, counts once here and twice in the source, so every later span, anchor, focus and seek offset differs by one per such character. Within the Basic Multilingual Plane the counts agree.
- Rendering, styling, Slate and the DOM are left out: React components, JSX, `ContentView` colours, the caret-to-Slate-point conversion and `Transforms.setNodes`. Only the offset-to-time lookup of `onClick` is modelled. Its `console` calls are dropped.
- Network and I/O are left out: the HTTP transport, the Bottle routes, the fetch of the glossary, `addGlossaryTerm` itself (the saved term is a parameter of `OnTermSaved`), and the JSON reading and writing of `convert_qt_input.py`.
- Randomness and identifiers are parameters. Each `random.uniform(a, b)` draw is a real between `a` and `b`, stated by `UniformDraw`. `uuid4().hex` is a string.
- The regular expression engine of `highlightText` is left out. Its matches are given as a sequence of non-empty, ordered, non-overlapping `(index, length)` pairs. Case-insensitive matching of the escaped query words is not modelled.
- Floating point is left out. Times and durations are exact reals, so rounding, `NaN`, infinities and the printing of non-integral numbers are not modelled.
- `Strings.ToLower`: only ASCII letters are lower-cased. JavaScript `toLowerCase` also folds other Unicode letters.
- `SpeakerBox.QueryWords`: `\s` is taken as the six ASCII whitespace characters. JavaScript also counts Unicode spaces.
- `ApiManager.WordList.WordNearTime`, `StartTime` and `EndTime` require a non-empty list, and so does `ApiManager.Manager.GetRandomTask`. Python raises `IndexError` on an empty one, and the model does not capture that throwing path.
- `ApiManager.Manager.GetBeforeText` and `GetAfterText` take non-negative indices. Python would also accept negative ones, but the callers never pass them.
- `ConvertQt.ConvertUttsToWordlist` requires the word objects to be distinct. `json.load` always builds fresh dicts. The dicts' other keys are kept as constant fields.
- `Responses.ToGlossary` is modelled as the code writes it: `terms` holds strings (the entries' texts). Elsewhere the panel reads terms as `GlossaryTerm` records. `GlossaryPanel` models those records and takes them as given. With the plain strings `toGlossary` delivers, `t.text.toLowerCase()` in the `items` filter (src/components/GlossaryPanel/GlossaryPanel.tsx:157) would throw on a non-empty search. The model does not capture that throwing path.
- The server's own task JSON (`asdict` in `server.py`) differs from the client's `TaskJSON`. `server.py` is not part of this model.
- The session's stale code is left out: `audioTiming` indexing a segment, `fetchTask` reading `task.timing.editable`, and the audio element effects.
- `onSaveTermClick` captures the glossary when it is rendered. The model applies the save to the current state and does not model a stale closure.

## Findings

| source | as written | input that shows it | evidently intended | confidence | as-written member | corrected member |
|---|---|---|---|---|---|---|
| src/components/Editor/Editor.tsx:138-139 | `handleDecorate` reads `timings[0].time.start` without checking that a Content has timings | a speaker turn made only of punctuation, e.g. the words `a` (speaker B) and then `.` (speaker A). `createBlocks` gives the `.` its own Block, whose Content has text `"."` and no timings, so `timings[0]` is `undefined` and the property read throws. | a Content without timings gets no decoration | not executed | `Decorate.PunctuationOnlyTurnBreaksDecorate` | `Decorate.DecorateGuarded` |
