# mdparserkit markdown parser, modelled in Dafny

mdparserkit turns a small Markdown dialect into styled text. The library has two
backends that parse the same way:

- `parseMarkdown` builds a Compose `AnnotatedString`.
- `parseMarkdownUsingSpannableString` builds an Android `SpannableStringBuilder`.

Both backends work the same way:

1. They split the input at `\n`.
2. They classify each line with a `when` over `startsWith`: headings `# ` to `###### `,
   unordered items `* ` and `- `, ordered items `^\d+\.\s.*$`, and paragraphs.
3. They run the line's content through `textMarkDown`. This is a loop that searches four
   regular expressions (bold-italic, bold, italic, strikethrough) from a cursor, picks the
   earliest match, appends the plain text in front of it, appends the match's group with
   the pattern's style, and moves the cursor past the match.
4. They append a line break after every line.
5. They `trim()` the result.

The model follows the code's own structure:

- The builders are classes with `modifies` clauses.
- `textMarkDown` and the line loop are `while` loops.
- Each method is proved against a specification function:
  - `Scan` gives the runs the scanner emits.
  - `Classify` gives the block a line belongs to.
  - `PutRuns`, `PutBlock` and `PutLines` give what gets appended.
  - `Document` gives the returned value.

The properties are lemmas about those functions.

Modules, one file each:

| file | module | contents |
|---|---|---|
| strings.dfy | `Strings` | Kotlin `startsWith`, `removePrefix`, `trim`, `split`, and the character classes of `isWhitespace`, `\s`, `\d` and the regex `.` |
| inline.dfy | `Inline` | the four patterns as character predicates, a leftmost-lazy `Find`, the `listOfNotNull(...).minByOrNull` selection, and `Scan` |
| blocks.dfy | `Blocks` | the line classifier and the visible text of a document, which both backends share |
| styled_text.dfy | `StyledText` | text with style spans, appending, and `trim()`'s clipping of spans |
| compose_markdown.dfy | `ComposeMarkdown` | the Compose backend |
| spanned_markdown.dfy | `SpannedMarkdown` | the Android backend |
| backends.dfy | `Backends` | the two backends compared |

Where the code's behaviour is not what its design intends, the model follows the code:

- **Unclosed bold.** `**not closed` does not come back as plain text. The italic pattern
  `[*_](.*?)[*_]` matches the two asterisks with an empty group, so the result is an empty
  italic run followed by `not closed` (`Inline.UnclosedBoldExample`).
- **Mixed italics.** `*a* and _b_` gives three runs: italic `a`, plain ` and `, italic `b`
  (`Inline.ItalicsExample`).
- **Stacked bullets.** The unordered branch removes `* ` and then `- `, one after the other,
  so `* - x` has the content `x` (`Blocks.StackedBulletExample`).
- **Bullet glyph.** The source file holds the UTF-8 bytes of `•` read back as Windows-1252,
  so the literal both backends append is the four characters `â€¢ ` (U+00E2, U+20AC,
  U+00A2 and a space). The model uses that literal (`Blocks.Bullet`).
- **Ordered prefix.** The ordered branch always takes the first two characters as the bold
  prefix, so `10. x` gives the prefix `10` and the content `. x`
  (`Blocks.TwoDigitOrdinalExample`). The pattern is anchored, so its match always starts
  at 0.
- **Heading 6.** The backends disagree about heading 6. Compose styles its plain text bold.
  Android passes the default `bold = false`, as it does for list items, and passes
  `bold = true` for paragraphs.
- **Text before a match.** On Android this text is never bold. On Compose it takes the
  block's weight (`Backends.PlainRunStyles`).

## Model

| member | source | states |
|---|---|---|
| Strings.RemovePrefix | mdparserkitcore/src/main/java/com/daksh/mdparserkit/core/ParseMarkdown.kt:28 | `removePrefix`: if the line starts with the prefix, the result is the rest after it; otherwise the line is unchanged |
| Strings.Trim | mdparserkitcore/src/main/java/com/daksh/mdparserkit/core/ParseMarkdown.kt:28 | `trim()`: the result is the slice between the first and last non-whitespace character; everything cut off is whitespace; a non-empty result begins and ends with non-whitespace; the result is empty exactly when the input is all whitespace |
| Strings.TrimIdempotent | mdparserkitcore/src/main/java/com/daksh/mdparserkit/core/ParseMarkdown.kt:28 | trimming an already trimmed string changes nothing |
| Strings.Split | mdparserkitcore/src/main/java/com/daksh/mdparserkit/core/ParseMarkdown.kt:20 | `split("\n")`: at least one piece; no piece contains the separator; joining the pieces with the separator gives the input back |
| Strings.SplitJoin | mdparserkitcore/src/main/java/com/daksh/mdparserkit/core/ParseMarkdown.kt:20 | the converse round trip: splitting a join of separator-free pieces gives the pieces back |
| Inline.FindClose | mdparserkitcore/src/main/java/com/daksh/mdparserkit/core/ParseMarkdown.kt:126-129 | the closing position that the lazy group reaches lies at or after the search point, leaves room for the minimal group (one character for `~~(.+?)~~`), and leaves room for the closing delimiter |
| Inline.FindCloseMeaning | mdparserkitcore/src/main/java/com/daksh/mdparserkit/core/ParseMarkdown.kt:126-129 | lazy `.*?` / `.+?`: the reported position closes a match, no earlier position closes one, and when nothing is reported no position does (a line terminator or the end of the text comes first) |
| Inline.Find | mdparserkitcore/src/main/java/com/daksh/mdparserkit/core/ParseMarkdown.kt:134-137 | `find(inputText, startIndex = currentIndex)`: a reported match starts at or after the cursor; its group starts right after the opening delimiter and holds at least the minimal group; the closing delimiter follows the group and lies inside the text |
| Inline.FindMeaning | mdparserkitcore/src/main/java/com/daksh/mdparserkit/core/ParseMarkdown.kt:134-137 | `find` reports the lazy match at the leftmost start at or after the cursor: nothing matches between the cursor and that start, and a null result means no match starts anywhere from the cursor on |
| Inline.FindFindsLeftmost | mdparserkitcore/src/main/java/com/daksh/mdparserkit/core/ParseMarkdown.kt:134-137 | converse: the leftmost lazy match from the cursor is exactly what `find` reports |
| Inline.FindFindsNothing | mdparserkitcore/src/main/java/com/daksh/mdparserkit/core/ParseMarkdown.kt:134-137 | converse: with no match from the cursor on, `find` reports null |
| Inline.Listed | mdparserkitcore/src/main/java/com/daksh/mdparserkit/core/ParseMarkdown.kt:139-143 | `listOfNotNull(...)`: every listed candidate is the non-null result of its own pattern |
| Inline.Candidates | mdparserkitcore/src/main/java/com/daksh/mdparserkit/core/ParseMarkdown.kt:134-143 | every candidate at the cursor is what its pattern's `find` reports there |
| Inline.FirstMin | mdparserkitcore/src/main/java/com/daksh/mdparserkit/core/ParseMarkdown.kt:144 | `minByOrNull { it.range.first }`: the index of a smallest start, and of the first one among equal starts |
| Inline.Earliest | mdparserkitcore/src/main/java/com/daksh/mdparserkit/core/ParseMarkdown.kt:144 | the selected candidate is one of the listed ones |
| Inline.Select | mdparserkitcore/src/main/java/com/daksh/mdparserkit/core/ParseMarkdown.kt:134-144 | the selected match is its own pattern's `find` result, so the `when` always reaches that pattern's row; it starts at or after the cursor, spans at least two characters, and its group lies strictly inside it |
| Inline.ListedPositions | mdparserkitcore/src/main/java/com/daksh/mdparserkit/core/ParseMarkdown.kt:139-143 | the list holds the non-null results in the order bold-italic, bold, italic, strikethrough |
| Inline.ListedEmpty | mdparserkitcore/src/main/java/com/daksh/mdparserkit/core/ParseMarkdown.kt:139-144 | the list is empty exactly when all four finds are null |
| Inline.EarliestFirst | mdparserkitcore/src/main/java/com/daksh/mdparserkit/core/ParseMarkdown.kt:144 | the minimum starts no later than any non-null result; at an equal start it comes from a pattern listed no later |
| Inline.EarliestOfListed | mdparserkitcore/src/main/java/com/daksh/mdparserkit/core/ParseMarkdown.kt:139-144 | `minByOrNull` over the list: null exactly when all four are null; otherwise a non-null result that is earliest, with ties going to the earlier-listed pattern |
| Inline.SelectIsEarliestFirst | mdparserkitcore/src/main/java/com/daksh/mdparserkit/core/ParseMarkdown.kt:134-146 | selection: `nextMarkDown` is null exactly when none of the four patterns matches; otherwise it starts no later than any pattern's match, and ties go in the order bold-italic, bold, italic, strikethrough |
| Inline.NoMatchLeftOfSelection | mdparserkitcore/src/main/java/com/daksh/mdparserkit/core/ParseMarkdown.kt:146-152 | between the cursor and the selected start, no pattern matches at any position |
| Inline.ChosenAreOrdered | mdparserkitcore/src/main/java/com/daksh/mdparserkit/core/ParseMarkdown.kt:183 | the loop terminates: every selected match spans at least two characters, so `range.last + 1` moves the cursor forward, and the selected matches are ordered and disjoint |
| Inline.ScanPreservesText | mdparserkitcore/src/main/java/com/daksh/mdparserkit/core/ParseMarkdown.kt:146-190 | text preservation: the concatenated runs are the input with each selected match replaced by its group 1 |
| Inline.ScanShortens | mdparserkitcore/src/main/java/com/daksh/mdparserkit/core/ParseMarkdown.kt:154-183 | each selected match removes at least two delimiter characters from the text |
| Inline.ScanWellShaped | mdparserkitcore/src/main/java/com/daksh/mdparserkit/core/ParseMarkdown.kt:146-190 | the loop emits runs of the shape `(gap? styled)* rest?` |
| Inline.WellShapedRuns | mdparserkitcore/src/main/java/com/daksh/mdparserkit/core/ParseMarkdown.kt:147-152 | plain runs are never empty (`range.first > currentIndex`, and the remainder is only taken when the cursor is inside the text); the remainder is always the last run; text before a match is always followed by the match's run |
| Inline.PlainRunsHoldNoMarkup | mdparserkitcore/src/main/java/com/daksh/mdparserkit/core/ParseMarkdown.kt:147-152 | no pattern matches at a position inside a plain run |
| Inline.NoMarkupSingleRun | mdparserkitcore/src/main/java/com/daksh/mdparserkit/core/ParseMarkdown.kt:184-190 | text without `*`, `_` or `~` comes back as one plain run holding all of it |
| Inline.BoldFirstMatch | mdparserkitcore/src/main/java/com/daksh/mdparserkit/core/ParseMarkdown.kt:127-144 | in `**x**`, bold and italic both match at 0, and bold is selected because it is listed first |
| Inline.BoldExample | mdparserkitcore/src/main/java/com/daksh/mdparserkit/core/ParseMarkdown.kt:127-183 | `**x**` is one bold run `x` |
| Inline.BoldItalicFirstMatch | mdparserkitcore/src/main/java/com/daksh/mdparserkit/core/ParseMarkdown.kt:126-144 | in `**_x_**`, bold-italic is selected |
| Inline.BoldItalicExample | mdparserkitcore/src/main/java/com/daksh/mdparserkit/core/ParseMarkdown.kt:126-183 | `**_x_**` is one bold-italic run `x`, not a bold run around an italic one |
| Inline.ItalicsFirstMatch | mdparserkitcore/src/main/java/com/daksh/mdparserkit/core/ParseMarkdown.kt:128-144 | `*a* and _b_` first selects `*a*` |
| Inline.ItalicsSecondMatch | mdparserkitcore/src/main/java/com/daksh/mdparserkit/core/ParseMarkdown.kt:128-144 | from the cursor at 3, it selects `_b_` at 8 |
| Inline.ItalicsExample | mdparserkitcore/src/main/java/com/daksh/mdparserkit/core/ParseMarkdown.kt:133-191 | `*a* and _b_` gives italic `a`, plain ` and `, italic `b` |
| Inline.UnclosedBoldFirstMatch | mdparserkitcore/src/main/java/com/daksh/mdparserkit/core/ParseMarkdown.kt:127-144 | in `**not closed`, only italic matches, with an empty group at 0 |
| Inline.UnclosedBoldNoMoreMatches | mdparserkitcore/src/main/java/com/daksh/mdparserkit/core/ParseMarkdown.kt:134-144 | after that match, nothing else matches |
| Inline.UnclosedBoldExample | mdparserkitcore/src/main/java/com/daksh/mdparserkit/core/ParseMarkdown.kt:133-191 | `**not closed` gives an empty italic run and then the plain remainder `not closed` |
| Blocks.OrderedLineMeaning | mdparserkitcore/src/main/java/com/daksh/mdparserkit/core/ParseMarkdown.kt:80 | the ordered-item test holds exactly when the line is one or more digits, `.`, one `\s` character, and a rest without line terminators |
| Blocks.Classify | mdparserkitcore/src/main/java/com/daksh/mdparserkit/core/ParseMarkdown.kt:25-105 | the `when`: heading levels are 1 to 6; an ordered item's prefix is the first two characters, with the rest of the line as content |
| Blocks.MarkerTest | mdparserkitcore/src/main/java/com/daksh/mdparserkit/core/ParseMarkdown.kt:27-63 | starting with the level-n literal is the same as starting with exactly n `#` and a space |
| Blocks.HeadingLevel | mdparserkitcore/src/main/java/com/daksh/mdparserkit/core/ParseMarkdown.kt:27-66 | the heading branch that fires: its level gives the same heading as the `when`, and 0 means the line is not a heading |
| Blocks.MarkerGivesLevel | mdparserkitcore/src/main/java/com/daksh/mdparserkit/core/ParseMarkdown.kt:27-66 | a line with the level-n marker fails every earlier heading test and passes the level-n one |
| Blocks.HeadingRecognised | mdparserkitcore/src/main/java/com/daksh/mdparserkit/core/ParseMarkdown.kt:27-66 | a line is a level-n heading exactly when it starts with n `#` and a space, and its content is the rest of the line, trimmed |
| Blocks.StackedBulletExample | mdparserkitcore/src/main/java/com/daksh/mdparserkit/core/ParseMarkdown.kt:68-69 | the double `removePrefix`: `* - x` has the content `x` |
| Blocks.TwoDigitOrdinalExample | mdparserkitcore/src/main/java/com/daksh/mdparserkit/core/ParseMarkdown.kt:80-100 | `10. x` has the prefix `10` and the content `. x` |
| Blocks.DocumentHasNoOuterWhitespace | mdparserkitcore/src/main/java/com/daksh/mdparserkit/core/ParseMarkdown.kt:107-109 | after the final `trim()`, the text neither starts nor ends with whitespace, and in particular does not end with the last line break |
| Blocks.ScanCharsFromInput | mdparserkitcore/src/main/java/com/daksh/mdparserkit/core/ParseMarkdown.kt:146-190 | every character the scanner emits comes from its input |
| Blocks.BlockCharsFromLine | mdparserkitcore/src/main/java/com/daksh/mdparserkit/core/ParseMarkdown.kt:25-105 | a block's content, and an ordered item's prefix, are made of the line's characters |
| Blocks.DecorationOfLine | mdparserkitcore/src/main/java/com/daksh/mdparserkit/core/ParseMarkdown.kt:68-100 | what goes ahead of a list item's content: the bullet literal for `* ` or `- `, the line's first two characters for an ordered item (`substring(startIndex, startIndex + 2)` with `startIndex` 0), nothing for headings and paragraphs; a list item's decoration is never empty |
| Blocks.VisibleLineIsOneLine | mdparserkitcore/src/main/java/com/daksh/mdparserkit/core/ParseMarkdown.kt:24-105 | a line's output contains no line break |
| Blocks.VisibleLinesJoin | mdparserkitcore/src/main/java/com/daksh/mdparserkit/core/ParseMarkdown.kt:24-108 | document assembly: the lines' outputs, each followed by `\n` |
| Blocks.LinesKeepTheirBreaks | mdparserkitcore/src/main/java/com/daksh/mdparserkit/core/ParseMarkdown.kt:20-108 | splitting the assembled text at `\n` gives back one output line per input line, plus the empty piece after the final break |
| StyledText.Put | mdparserkitcore/src/main/java/com/daksh/mdparserkit/core/ParseMarkdown.kt:107 | `append(String)` keeps every range inside the text |
| StyledText.Trimmed | mdparserkitcore/src/main/java/com/daksh/mdparserkit/core/ParseMarkdown.kt:109 | `trim()` of styled text: the text is the trimmed text, and the ranges stay inside it |
| StyledText.TrimKeepsInnerSpan | mdparserkitcore/src/main/java/com/daksh/mdparserkit/core/ParseMarkdown.kt:109 | a range that lies inside the trimmed window survives `trim()` and covers the same characters |
| ComposeMarkdown.Shift | mdparserkitcore/src/main/java/com/daksh/mdparserkit/core/ParseMarkdown.kt:95 | the ranges of an appended annotated string move by the length of the text before it |
| ComposeMarkdown.PutAnnotated | mdparserkitcore/src/main/java/com/daksh/mdparserkit/core/ParseMarkdown.kt:95 | `append(AnnotatedString)`: the text grows by the appended text, and the ranges stay in bounds |
| ComposeMarkdown.PutAnnotatedRun | mdparserkitcore/src/main/java/com/daksh/mdparserkit/core/ParseMarkdown.kt:151 | appending `AnnotatedString(t, style)` adds exactly one range, over the appended characters |
| ComposeMarkdown.DecorationRange | mdparserkitcore/src/main/java/com/daksh/mdparserkit/core/ParseMarkdown.kt:68-100 | a list item appends its decoration with exactly one range over those characters, bold at 14 sp, neither italic nor struck through; headings and paragraphs append nothing ahead of their content |
| ComposeMarkdown.AnnotatedStringBuilder.constructor | mdparserkitcore/src/main/java/com/daksh/mdparserkit/core/ParseMarkdown.kt:21 | a new builder is empty |
| ComposeMarkdown.AnnotatedStringBuilder.AppendText | mdparserkitcore/src/main/java/com/daksh/mdparserkit/core/ParseMarkdown.kt:107 | `append("\n")` appends text and no range |
| ComposeMarkdown.AnnotatedStringBuilder.Append | mdparserkitcore/src/main/java/com/daksh/mdparserkit/core/ParseMarkdown.kt:74-76 | `append(AnnotatedString)` on the builder |
| ComposeMarkdown.TextMarkDown | mdparserkitcore/src/main/java/com/daksh/mdparserkit/core/ParseMarkdown.kt:120-192 | the loop appends exactly the scanner's runs in order, each with the style of its row |
| ComposeMarkdown.MatchStep | mdparserkitcore/src/main/java/com/daksh/mdparserkit/core/ParseMarkdown.kt:146-183 | the branch that handles a match appends the first runs of the scan and leaves the scan from `range.last + 1` to do |
| ComposeMarkdown.RestStep | mdparserkitcore/src/main/java/com/daksh/mdparserkit/core/ParseMarkdown.kt:184-190 | the branch with no match appends the remainder and ends the scan |
| ComposeMarkdown.AppendBlock | mdparserkitcore/src/main/java/com/daksh/mdparserkit/core/ParseMarkdown.kt:25-105 | one branch of the `when`: sizes 24/20/18/16/14/12 sp, bold for headings; bullet or two-character prefix, bold at 14 sp, then normal-weight content for list items; normal weight at 14 sp for paragraphs |
| ComposeMarkdown.ParseMarkdown | mdparserkitcore/src/main/java/com/daksh/mdparserkit/core/ParseMarkdown.kt:19-110 | `parseMarkdown` returns the trimmed buffer after every line's block and its line break |
| ComposeMarkdown.PutRunsKeeps | mdparserkitcore/src/main/java/com/daksh/mdparserkit/core/ParseMarkdown.kt:151-188 | `textMarkDown` keeps earlier ranges and adds one range per run, empty runs included |
| ComposeMarkdown.PutRunsRangeAt | mdparserkitcore/src/main/java/com/daksh/mdparserkit/core/ParseMarkdown.kt:151-188 | the range added for run i has that run's style and lies right after the text of the runs before it |
| ComposeMarkdown.PutRunsShape | mdparserkitcore/src/main/java/com/daksh/mdparserkit/core/ParseMarkdown.kt:151-188 | text, the kept prefix of ranges, and the position and style of each new range, together |
| ComposeMarkdown.RunRangesCoverTheirText | mdparserkitcore/src/main/java/com/daksh/mdparserkit/core/ParseMarkdown.kt:147-190 | every range the loop attaches covers exactly its run's text |
| ComposeMarkdown.RunStyleMeaning | mdparserkitcore/src/main/java/com/daksh/mdparserkit/core/ParseMarkdown.kt:150-187 | the style table: every run has the block's size; bold exactly for bold-italic, bold, and plain text in a bold block; italic exactly for bold-italic and italic; line-through exactly for strikethrough; italic and strikethrough leave the weight unset |
| ComposeMarkdown.HeadingSizesDecrease | mdparserkitcore/src/main/java/com/daksh/mdparserkit/core/ParseMarkdown.kt:29-65 | heading sizes fall strictly from 24 sp at level 1 to 12 sp at level 6 |
| ComposeMarkdown.PutRunsText | mdparserkitcore/src/main/java/com/daksh/mdparserkit/core/ParseMarkdown.kt:151-188 | the loop appends the runs' texts |
| ComposeMarkdown.PutContentText | mdparserkitcore/src/main/java/com/daksh/mdparserkit/core/ParseMarkdown.kt:74-100 | a block appends its decoration and then its runs' texts |
| ComposeMarkdown.PutBlockText | mdparserkitcore/src/main/java/com/daksh/mdparserkit/core/ParseMarkdown.kt:25-105 | a block appends its visible text |
| ComposeMarkdown.PutLinesText | mdparserkitcore/src/main/java/com/daksh/mdparserkit/core/ParseMarkdown.kt:24-108 | the buffer's text is each line's visible text followed by `\n` |
| ComposeMarkdown.DocumentText | mdparserkitcore/src/main/java/com/daksh/mdparserkit/core/ParseMarkdown.kt:19-110 | the returned text is the document's visible text |
| SpannedMarkdown.SetSpanOn | mdparserkitcore/src/main/java/com/daksh/mdparserkit/core/SpannedParseMarkdown.kt:169-174 | `setSpan` never changes the text; a zero-length `SPAN_EXCLUSIVE_EXCLUSIVE` span leaves the builder as it was; a non-empty one is added after the existing spans with its own range; spans stay in bounds |
| SpannedMarkdown.DecorationSpan | mdparserkitcore/src/main/java/com/daksh/mdparserkit/core/SpannedParseMarkdown.kt:85-112 | a list item appends its decoration with one bold `StyleSpan` over exactly those characters, which is kept because the decoration is non-empty; headings and paragraphs append nothing ahead of their content |
| SpannedMarkdown.PutSpanned | mdparserkitcore/src/main/java/com/daksh/mdparserkit/core/SpannedParseMarkdown.kt:88 | `append(text, what, flags)` appends the text |
| SpannedMarkdown.SpannableStringBuilder.constructor | mdparserkitcore/src/main/java/com/daksh/mdparserkit/core/SpannedParseMarkdown.kt:20 | a new builder is empty |
| SpannedMarkdown.SpannableStringBuilder.Length | mdparserkitcore/src/main/java/com/daksh/mdparserkit/core/SpannedParseMarkdown.kt:171-172 | `length` is the text's length |
| SpannedMarkdown.SpannableStringBuilder.Append | mdparserkitcore/src/main/java/com/daksh/mdparserkit/core/SpannedParseMarkdown.kt:122 | `append("\n")` appends text and no span |
| SpannedMarkdown.SpannableStringBuilder.SetSpan | mdparserkitcore/src/main/java/com/daksh/mdparserkit/core/SpannedParseMarkdown.kt:169-174 | `setSpan` on the builder |
| SpannedMarkdown.SpannableStringBuilder.AppendSpanned | mdparserkitcore/src/main/java/com/daksh/mdparserkit/core/SpannedParseMarkdown.kt:88 | `append(text, what, flags)` on the builder: the text, then `what` over it |
| SpannedMarkdown.AppendSized | mdparserkitcore/src/main/java/com/daksh/mdparserkit/core/SpannedParseMarkdown.kt:168-174 | a run's `append` followed by `setSpan(RelativeSizeSpan(textRatio), length - t.length, length)` |
| SpannedMarkdown.TextMarkDown | mdparserkitcore/src/main/java/com/daksh/mdparserkit/core/SpannedParseMarkdown.kt:135-225 | the loop appends exactly the scanner's runs in order, each with its `CustomTagSpan` and its `RelativeSizeSpan` |
| SpannedMarkdown.MatchStep | mdparserkitcore/src/main/java/com/daksh/mdparserkit/core/SpannedParseMarkdown.kt:161-208 | the branch that handles a match appends the first runs of the scan |
| SpannedMarkdown.RestStep | mdparserkitcore/src/main/java/com/daksh/mdparserkit/core/SpannedParseMarkdown.kt:209-223 | the branch with no match appends the remainder and ends the scan |
| SpannedMarkdown.NonEmpty | mdparserkitcore/src/main/java/com/daksh/mdparserkit/core/SpannedParseMarkdown.kt:124 | the spans kept by the builder copy are non-empty and come from the window's spans |
| SpannedMarkdown.TrimmedBuilder | mdparserkitcore/src/main/java/com/daksh/mdparserkit/core/SpannedParseMarkdown.kt:124 | `trim()` of the builder: the text is trimmed, and every kept span is non-empty and in bounds |
| SpannedMarkdown.TrimmedBuilderKeepsInnerSpan | mdparserkitcore/src/main/java/com/daksh/mdparserkit/core/SpannedParseMarkdown.kt:124 | a non-empty span inside the trimmed window survives `trim()` with its style and covers the same characters |
| SpannedMarkdown.AppendBlock | mdparserkitcore/src/main/java/com/daksh/mdparserkit/core/SpannedParseMarkdown.kt:24-120 | one branch of the `when`: ratios 1.714/1.64/1.2857/1.142857/1/0.8571; `bold` true for headings 1 to 5 and paragraphs, false for heading 6 and list items; for list items, the bullet or prefix with a bold `StyleSpan` first |
| SpannedMarkdown.ParseMarkdownUsingSpannableString | mdparserkitcore/src/main/java/com/daksh/mdparserkit/core/SpannedParseMarkdown.kt:18-125 | the function returns the trimmed builder after every line's block and its line break |
| SpannedMarkdown.PutRunSpans | mdparserkitcore/src/main/java/com/daksh/mdparserkit/core/SpannedParseMarkdown.kt:200-206 | a non-empty run gets exactly its tag and a `RelativeSizeSpan`, both over exactly the appended characters; an empty run gets no span |
| SpannedMarkdown.PutRunsKeeps | mdparserkitcore/src/main/java/com/daksh/mdparserkit/core/SpannedParseMarkdown.kt:161-223 | the loop keeps earlier spans and adds two spans per non-empty run |
| SpannedMarkdown.PutRunsShape | mdparserkitcore/src/main/java/com/daksh/mdparserkit/core/SpannedParseMarkdown.kt:161-223 | the loop appends the runs' texts, keeps earlier spans, and adds two spans per non-empty run |
| SpannedMarkdown.BoldOnlyAffectsRest | mdparserkitcore/src/main/java/com/daksh/mdparserkit/core/SpannedParseMarkdown.kt:211-215 | `bold` only reaches the remainder: without a remainder run, both values append the same spans |
| SpannedMarkdown.ScanWithoutRestIgnoresBold | mdparserkitcore/src/main/java/com/daksh/mdparserkit/core/SpannedParseMarkdown.kt:211-215 | content whose scan ends on a match renders the same whatever `bold` is |
| SpannedMarkdown.TagMeaning | mdparserkitcore/src/main/java/com/daksh/mdparserkit/core/SpannedParseMarkdown.kt:165-214 | the tags: text before a match is plain; the remainder is bold only when `bold` is set; each pattern sets its own flags |
| SpannedMarkdown.PutRunsText | mdparserkitcore/src/main/java/com/daksh/mdparserkit/core/SpannedParseMarkdown.kt:161-223 | the loop appends the runs' texts |
| SpannedMarkdown.PutContentText | mdparserkitcore/src/main/java/com/daksh/mdparserkit/core/SpannedParseMarkdown.kt:85-115 | a block appends its decoration and then its runs' texts |
| SpannedMarkdown.PutBlockText | mdparserkitcore/src/main/java/com/daksh/mdparserkit/core/SpannedParseMarkdown.kt:24-120 | a block appends its visible text |
| SpannedMarkdown.PutLinesText | mdparserkitcore/src/main/java/com/daksh/mdparserkit/core/SpannedParseMarkdown.kt:23-123 | the builder's text is each line's visible text followed by `\n` |
| SpannedMarkdown.DocumentText | mdparserkitcore/src/main/java/com/daksh/mdparserkit/core/SpannedParseMarkdown.kt:18-125 | the returned text is the document's visible text |
| Backends.SameText | mdparserkitcore/src/main/java/com/daksh/mdparserkit/core/SpannedParseMarkdown.kt:18-125 | both backends return the same text, the document's visible text |
| Backends.HeadingStyles | mdparserkitcore/src/main/java/com/daksh/mdparserkit/core/SpannedParseMarkdown.kt:26-83 | a line with n `#` and a space gets the level-n size on both sides; Compose's plain text is bold at every level, Android's only at levels 1 to 5 |
| Backends.OtherBlockStyles | mdparserkitcore/src/main/java/com/daksh/mdparserkit/core/SpannedParseMarkdown.kt:85-120 | outside headings both sides use the base size; Compose's plain text is never bold; Android's is bold exactly for paragraphs |
| Backends.PlainRunStyles | mdparserkitcore/src/main/java/com/daksh/mdparserkit/core/SpannedParseMarkdown.kt:162-214 | in a bold block, text before a match is bold on Compose but not on Android; the remainder is bold on both |

## Left out

- Rendering is not modelled: how Compose draws a `SpanStyle`, and `CustomTagSpan`'s typeface and paint flags (`CustomTagSpan.kt` and the copy at the end of `SpannedParseMarkdown.kt`). The spans are values carrying their flags.
- Font sizes are whole sp. `RelativeSizeSpan` ratios are the decimal literals in millionths, so `1.714f` is written 1714000. Floating-point rounding is not modelled.
- Strings are sequences of `char`. Kotlin counts UTF-16 code units; text outside the Basic Multilingual Plane is not modelled.
- The regular-expression engine is not modelled. The four inline patterns and the ordered-item pattern are written as predicates on characters, with the desktop JDK's `java.util.regex` meanings of `.`, `\s` and `\d`. `Find` is the engine's leftmost-first, lazy search for these particular patterns.
- Strings.IsDigit, Strings.IsRegexSpace, Strings.IsLineTerminator: these are the desktop JDK's ASCII classes. On Android the same calls run on ICU's regex engine, where `\d` is any Unicode decimal digit (`\p{Nd}`), `\s` also takes Unicode spaces such as U+00A0, and `.` also stops at U+000B and U+000C. So on Android `١. item` (U+0661) and `1.` followed by U+00A0 are ordered items, and `**a`, U+000B, `b**` has no bold match; the model classifies and scans those inputs as the desktop JDK does.
- `when (nextMarkDown)` dispatches on which pattern's find the selected match came from; `MatchResult` equality is object identity. The loop looks up that pattern's row of the style table. The `else` row (`IllegalStateException` in Compose, `CustomTagSpan()` on Android) is never reached and is not written (see `Inline.Select`).
- Ordered items: `startIndex` is always 0 because the pattern is anchored at `^`, and the `startIndex > 0` branch is never taken. It is not written.
- Compose `trim()` keeps a range that overlaps the trimmed window or lies inside it. The library's extra boundary rule for ranges that end exactly at the window's edge is simplified to that test.
- Android: only `SPAN_EXCLUSIVE_EXCLUSIVE` is modelled, the only flag the parser uses. Span priorities and the order in which `getSpans` reports spans are not modelled; spans are kept in the order they are attached.
- Android `trim()` keeps the spans that stay non-empty inside the window, clipped to it.
- The sample apps, the Compose `Text` wrapper and the build files are not part of this model.
