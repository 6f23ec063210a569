# SpurC++ editor: syntax highlighting and line-number gutter

This project models two parts of the SpurC++ editor, a small Tk C++ editor.

The first is the syntax-highlight pass `SpurCEditor._highlight`. It reads the whole buffer as one string and removes the four syntax tags (`comment`, `string`, `number`, `keyword`). It then re-adds each tag over the character ranges that five regular-expression scans find: block comments, line comments, string literals, decimal numbers, and every word of the fixed `KEYWORDS` set. Where several tags overlap, Tk draws each display option from the highest-priority tag that covers the character and sets that option; priority is the order the tags were configured in: comment < string < number < keyword. All four tags set a foreground colour, so the colour is the last configured covering tag's. Only comment (italic) and keyword (bold) set a font, so a string or number over a comment keeps the comment's italic font.

The second is the gutter walk `LineNumbers.redraw`. It clears the gutter and, starting from the line at the top of the viewport, draws each line's number at that line's vertical offset. It stops at the first line the text widget reports as not laid out.

The project has these modules:

- `Scanner` (scanner.dfy): the five patterns as explicit matchers (`MatchAt`) and the `re.finditer` enumeration (`Scan`). The enumeration is leftmost-first and non-overlapping. After a failed attempt it moves one character on; after a match it resumes at the match's end. `ScanIsLeftmost` and `LeftmostIsScan` prove that `Scan` is the one enumeration with those properties.
- `Tokens` (tokens.dfy): the keyword set, and a declarative "matches exactly when" lemma for each pattern. It also defines the keyword-run reference set `KeywordRuns`: the offsets of maximal word runs that spell a keyword. `KeywordCoverIsRuns` proves that the union of the keyword scans is exactly that set.
- `TokenCases` and `HighlightCases` (token_cases.dfy, highlight_cases.dfy): worked buffers, each stated as the exact spans or the exact colour and font drawn.
- `Highlight` (highlight.dfy): the text widget's tag state as a class with a `map<Tag, set<nat>>` field, the highlight pass as a method with loops, and the rules for the colour (`Foreground`) and the font (`Font`) drawn at each character.
- `Gutter` (gutter.dfy): the gutter as a class holding its labels. `Redraw` is a `while true` loop over a layout oracle.
- `Wrappers` (wrappers.dfy): `Option`.

Modelling choices:

- `\w` is modelled as ASCII `[A-Za-z0-9_]` and `\d` as ASCII `[0-9]` (`Scanner.IsWordChar`, `Scanner.IsDigit`).
- Text is `seq<char>`, and a tag range is a half-open range of character offsets into the string the pass read.
- The text widget's answers during a gutter redraw form a `Layout` value:
  - the line at the viewport's top-left pixel, or `None` when that index query raises `TclError`;
  - one optional y-offset per line, where `None` means "not laid out".

The model follows the regular expressions exactly. Note what they do:

- An unterminated `/*` or `"` produces no span at all; it does not run to the end of the text.
- A backslash escapes any character except a newline, because `.` does not match `\n`.
- A string literal may contain a raw newline, because `[^"\\]` matches it.

## Model

| member | source | states |
|---|---|---|
| Scanner.RunEnd | SpurCppEditor.py:145-149 | a greedy run, as of `.*` (line 145), `\d+` (line 149) and the word runs of the keyword reference, stops at the first character outside the class, or at the end of the text |
| Scanner.FindClose | SpurCppEditor.py:143 | the lazy `[\s\S]*?` stops at the first `*/` at or after the given offset, and finds none when there is none |
| Scanner.StringClose | SpurCppEditor.py:147 | a string body that closes ends just after a `"` and is a well-formed sequence of escapes and plain characters |
| Scanner.MatchAt | SpurCppEditor.py:143-153 | a match of any of the five patterns is non-empty and ends inside the buffer |
| Scanner.Enumerate | SpurCppEditor.py:143-153 | each span of the finditer loop is a match starting where the span starts; the spans are in increasing order and do not overlap |
| Scanner.Scan | SpurCppEditor.py:143-153 | the spans of `re.finditer` lie inside the buffer, are non-empty, in increasing order and disjoint |
| Scanner.ScanSpan | SpurCppEditor.py:143-153 | every span the scan yields is a match of the pattern at that span's start |
| Scanner.EnumerateIsLeftmost | SpurCppEditor.py:143-153 | the enumeration is leftmost-first: every offset where a match could start lies inside a reported span |
| Scanner.LeftmostIsEnumerate | SpurCppEditor.py:143-153 | any ordered, disjoint list of matches that covers every match start is the enumeration itself |
| Scanner.ScanIsLeftmost | SpurCppEditor.py:143-153 | `re.finditer` semantics: the scan's spans are matches, ordered, disjoint, and cover every offset where the pattern matches |
| Scanner.LeftmostIsScan | SpurCppEditor.py:143-153 | those properties determine the scan: any list of spans with them equals the scan |
| Scanner.Covered | SpurCppEditor.py:143-153 | the offsets a tag gains from a list of spans are exactly those inside one of the spans |
| Scanner.ScanWithin | SpurCppEditor.py:143-153 | no scanned span covers an offset before the scan's start or at or past the end of the text |
| Tokens.BlockCommentMatch | SpurCppEditor.py:143 | a block comment matches from `/*` to just past the first `*/` that starts at least two characters later, so `/*/` is not a comment and comments do not nest |
| Tokens.BlockCommentUnterminated | SpurCppEditor.py:143 | a `/*` yields no match exactly when no `*/` follows it |
| Tokens.LineCommentMatch | SpurCppEditor.py:145 | a line comment runs from `//` to just before the next newline or to the end, and contains no newline |
| Tokens.StringCloseComplete | SpurCppEditor.py:147 | a well-formed body followed by `"` is closed exactly at that quote |
| Tokens.StringLiteralMatch | SpurCppEditor.py:147 | a string matches exactly between two quotes with a well-formed body between; an escaped quote does not close it, and a backslash before a newline or the end leaves the opening quote unmatched |
| Tokens.NumberMatchSound | SpurCppEditor.py:149 | a number match is word-bounded digits, optionally followed by a dot and more digits |
| Tokens.NumberMatchLongest | SpurCppEditor.py:149 | of all word-bounded decimal literals starting at an offset, the matcher returns the longest |
| Tokens.NumberMatch | SpurCppEditor.py:149 | a number matches exactly the longest word-bounded literal, so `12.5x` gives `12` and digits glued to word characters give nothing |
| Tokens.Keywords | SpurCppEditor.py:15-21 | the 43 keywords, written as the union of the five source lines |
| Tokens.KeywordsAreWords | SpurCppEditor.py:15-21 | every keyword is a non-empty string of word characters |
| Tokens.WordMatch | SpurCppEditor.py:151-153 | a keyword matches exactly over a maximal word run that spells it |
| Tokens.KeywordCoverAdd | SpurCppEditor.py:151-153 | scanning one more keyword adds exactly that keyword's spans to the union |
| Tokens.ScannedWordIsRun | SpurCppEditor.py:151-153 | an offset a keyword scan covers lies in a word run whose text is that keyword |
| Tokens.RunIsScanned | SpurCppEditor.py:151-153 | every offset of a word run is covered by the scan for the run's own text |
| Tokens.KeywordCoverIsRuns | SpurCppEditor.py:151-153 | the union of the keyword scans is exactly the set of offsets in maximal word runs that spell a keyword, whatever order the set is iterated in |
| Tokens.KeywordSpansDisjoint | SpurCppEditor.py:151-153 | spans found for two different keywords never share an offset |
| TokenCases.SlashStarSlashIsNotAComment | SpurCppEditor.py:143 | `/*/` yields no block comment |
| TokenCases.UnterminatedBlockComment | SpurCppEditor.py:143 | a `/*` with no closer yields no span |
| TokenCases.BlockCommentsDoNotNest | SpurCppEditor.py:143 | in `/* a /* b */ c */` the comment ends at the first `*/` |
| TokenCases.LineCommentStopsAtNewline | SpurCppEditor.py:145 | a line comment stops before the newline |
| TokenCases.EscapedQuote | SpurCppEditor.py:147 | `\"` inside a literal does not close it |
| TokenCases.BackslashNewline | SpurCppEditor.py:147 | a backslash before a newline leaves the literal unmatched |
| TokenCases.NumberStopsBeforeGluedFraction | SpurCppEditor.py:149 | `12.5x` gives the single number `12` |
| TokenCases.TwoDotsGiveTwoNumbers | SpurCppEditor.py:149 | `1.2.3` gives `1.2` and `3` |
| TokenCases.DigitsGluedToWordsAreNotNumbers | SpurCppEditor.py:149 | `123abc` and `x1` give no number |
| TokenCases.SampleWords | SpurCppEditor.py:15-21 | `int` is a keyword; `intx` and `x` are not |
| TokenCases.IntxRuns | SpurCppEditor.py:151-153 | `intx` holds no keyword run for any word set without `intx` |
| TokenCases.KeywordInsideLongerWord | SpurCppEditor.py:151-153 | no keyword is tagged in `intx` |
| TokenCases.IntSpaceXRuns | SpurCppEditor.py:151-153 | in `int x`, exactly offsets 0-2 are in a keyword run |
| TokenCases.KeywordStandingAlone | SpurCppEditor.py:151-153 | in `int x`, the keyword tag covers exactly offsets 0-2 |
| Highlight.Priority | SpurCppEditor.py:124-129 | the tag configuration order comment, string, number, keyword, lowest priority first |
| Highlight.Rank | SpurCppEditor.py:124-129 | each tag's place in the configuration order |
| Highlight.TopOf | SpurCppEditor.py:124-129 | the last tag in a priority list that covers an offset, with no later covering tag |
| Highlight.Foreground | SpurCppEditor.py:124-129 | every tag sets a colour, so the colour drawn is the covering tag configured last's; the widget's own colour exactly when no tag covers the offset |
| Highlight.ForegroundByRank | SpurCppEditor.py:124-129 | a covering tag that no later-configured tag also covers gives the colour drawn |
| Highlight.Font | SpurCppEditor.py:124-129 | only comment and keyword set a font; the font drawn is that of the covering font-setting tag configured last, and the widget's own font exactly when neither covers the offset |
| Highlight.FontByRank | SpurCppEditor.py:124-129 | a covering font-setting tag that no later-configured font-setting tag also covers gives the font drawn; with none, the widget's own font |
| Highlight.TextWidget.TagRemove | SpurCppEditor.py:141 | `tag_remove(tag, "1.0", "end")` empties that tag and changes nothing else |
| Highlight.TextWidget.TagAdd | SpurCppEditor.py:144 | `tag_add` adds the span's offsets to the tag and changes nothing else |
| Highlight.SpurCEditor.AddAll | SpurCppEditor.py:143-150 | a finditer loop of `tag_add` calls adds exactly the scan's covered offsets to the tag |
| Highlight.SpurCEditor.ClearTags | SpurCppEditor.py:140-141 | after the removal loop all four tags are empty |
| Highlight.SpurCEditor.AddKeywords | SpurCppEditor.py:151-153 | the nested loop over the keyword set adds the union of the keyword scans to the keyword tag, whatever order the set yields |
| Highlight.SpurCEditor.Highlight | SpurCppEditor.py:138-153 | after a pass each tag holds exactly this buffer's expected offsets: comments both kinds, strings, numbers, and keyword runs; nothing from an earlier pass survives |
| Highlight.SpurCEditor.HighlightTwice | SpurCppEditor.py:138-153 | a second pass over unchanged text leaves the same tag state |
| Highlight.ExpectedTags | SpurCppEditor.py:139-153 | the tag state one pass leaves: all four tags present, and the keyword tag only on word characters of the buffer |
| Highlight.ExpectedTagsBuilt | SpurCppEditor.py:138-153 | clearing the tags and adding each scan in source order builds the expected tag state |
| Highlight.ExpectedWithinBuffer | SpurCppEditor.py:138-153 | after a pass no tag covers an offset at or past the end of the buffer |
| Highlight.EmptyBufferClearsTags | SpurCppEditor.py:138-153 | an empty buffer leaves all four tags empty |
| Highlight.StringColourShown | SpurCppEditor.py:124-129 | inside a string span with no number or keyword, the string colour is drawn, even over a comment range; the font is the comment's italic exactly where a comment range lies, else the widget's own |
| Highlight.KeywordStyleWins | SpurCppEditor.py:124-129 | wherever a keyword run lies, the keyword's colour and bold font are drawn, whatever else covers it |
| HighlightCases.QuotedIntString | SpurCppEditor.py:147 | `"int"` is a single string span |
| HighlightCases.QuotedIntNumbers | SpurCppEditor.py:149 | `"int"` holds no number |
| HighlightCases.QuotedIntScans | SpurCppEditor.py:147 | the string tag covers all five characters of `"int"` |
| HighlightCases.QuotedIntRuns | SpurCppEditor.py:151-153 | the word inside the quotes is a keyword run, although it lies in a string |
| HighlightCases.QuotedIntComments | SpurCppEditor.py:143-145 | `"int"` holds no comment of either kind |
| HighlightCases.KeywordShownInsideString | SpurCppEditor.py:124-129 | in `"int"` the word is drawn in the keyword's colour and font, for any word set holding `int` |
| HighlightCases.KeywordIntShownInsideString | SpurCppEditor.py:124-129 | the same for the editor's own keyword set |
| HighlightCases.QuotesShownAsString | SpurCppEditor.py:124-129 | in a buffer holding `"int"`, the quotes are drawn in the string colour and the widget's own font |
| HighlightCases.QuoteShownAsString | SpurCppEditor.py:124-129 | either quote of `"int"` is drawn in the string colour and the widget's own font |
| HighlightCases.QuotedSlashesString | SpurCppEditor.py:147 | `"//"` is one string span covering all four characters, and holds no number |
| HighlightCases.QuotedSlashesComment | SpurCppEditor.py:145 | the scans ignore each other: `//` inside a string still yields a line-comment span |
| HighlightCases.QuotedSlashesRuns | SpurCppEditor.py:151-153 | `"//"` holds no keyword run |
| HighlightCases.CommentMarkerTagged | SpurCppEditor.py:145 | in a buffer holding `"//"`, the slashes and the closing quote carry the comment tag |
| HighlightCases.CommentMarkerColourAndFont | SpurCppEditor.py:124-129 | those characters are drawn in the string colour, configured after the comment's, but in the comment's italic font, since the string tag sets none |
| HighlightCases.LineCommentInsideBlockComment | SpurCppEditor.py:143-145 | a `//` inside a block comment yields its own line-comment span, overlapping the block comment |
| Gutter.LabelsFrom | SpurCppEditor.py:38-45 | the labels the walk draws from a line on: each numbers a line of the text, and they never run past its last line |
| Gutter.Drawn | SpurCppEditor.py:32-45 | the labels one redraw leaves: at most one per line of the text, each numbering one of its lines |
| Gutter.LineNumbers.Redraw | SpurCppEditor.py:32-45 | after a redraw the gutter holds exactly the labels the layout calls for, whatever it held before |
| Gutter.LabelsFromShows | SpurCppEditor.py:38-45 | the walk emits consecutive line numbers, each at its reported offset, and stops at a line that is not laid out |
| Gutter.ShowsFromUnique | SpurCppEditor.py:38-45 | only one label list has those properties |
| Gutter.DrawnExactly | SpurCppEditor.py:32-45 | the gutter shows nothing when the top-line query fails, and otherwise exactly the consecutive laid-out lines from the top line on, ending before the first line not laid out |
| Gutter.DrawnAscending | SpurCppEditor.py:38-45 | when reported offsets grow line by line, the labels are in strictly increasing line and offset order |
| Gutter.EmptyBufferOneLabel | SpurCppEditor.py:32-45 | a one-line layout shows exactly one label, line 1 |

## Left out

- File open and save, and the 10 MB size check (SpurCppEditor.py:156-187): these are file I/O and dialogs.
- Compile and run (SpurCppEditor.py:190-226): these are external processes and a background thread.
- The console widget, status bar, toolbar, icons, window geometry, colours and fonts: these are UI with no logic. The actual colour values and font faces of the four tags and of the gutter labels are not modelled, only which tag supplies the colour and which the font; nor is a label's x position and anchor.
- Event binding and scheduling (SpurCppEditor.py:30-31, 239-243): this is Tk dispatch. At line 243 the editor rebinds `<KeyRelease>` without `add="+"`, which replaces the highlight binding from line 240. The model describes what one pass does, not when passes run.
- Tk index arithmetic: `1.0+Nc`, `end-1c`, the trailing newline, `@0,0`, and `+1line` clamping at the end. Offsets are plain character offsets into the string the pass read. How Tk counts characters outside the Basic Multilingual Plane is not modelled.
- Unicode `\w` and `\d`: these are modelled as ASCII classes.
- `dlineinfo` geometry: it is an oracle value (`Gutter.Layout`), and line numbers are read from it rather than parsed from an index string.
- How Tk moves tag ranges when the text is edited between passes: each pass reads the buffer afresh, and the model covers one pass.
- Scanner.Scan: its own contract states only bounds and order. What finditer promises is stated by Scanner.ScanIsLeftmost and Scanner.LeftmostIsScan.
