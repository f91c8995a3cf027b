# PDF text reconstruction and paragraph segmentation, in Dafny

This project models the two text-processing routines at the heart of the PDF
processing server in `server.js`, and proves what they do:

- **Line reconstruction** — the loop inside `render_page`. It walks one page's
  text items in the order the PDF parser emits them. It appends each item's
  string, and puts a line break before the string when the previous baseline
  (`lastY`) is set and differs from the item's baseline (`transform[5]`).
  The model is module `Reconstruct`. Each item is a `TextItem(str, y)` with an
  integer baseline. `0` stands both for "no baseline yet" and for the falsy
  baseline `0`, because the code's `!lastY` treats the two the same way.
- **Paragraph segmentation** — `splitTextIntoParagraphs`. It splits the text at
  `\r?\n`, trims every line, and scans the lines once. The scan keeps a
  `currentParagraph` accumulator and an append-only `paragraphs` list, and
  applies the first of four rules to each line: blank line, marker, all-caps
  heading, continuation. The model is module `Segmentation`. The string
  primitives it uses (trim, split, join, upper-case) are in module `Text`.
  Module `Partition` shows the output as a partition of the non-blank lines.

Both loops are `method`s with loop invariants: `Reconstruct.RenderPageText`
and `Segmentation.SplitTextIntoParagraphs`. Each is proved equal to a pure
fold (`Render`, `Paragraphs`) that mirrors the loop one iteration at a time.
The lemmas about the behaviour are proved about those folds.

Files: `text.dfy`, `reconstruct.dfy`, `segmentation.dfy`, `partition.dfy`.

### What the marker test accepts

The marker test at `server.js:66` is `/^\d+\.|\w\./`. Its second alternative
is not anchored, and `\w` is any ASCII letter, digit or underscore. So a line
is a marker as soon as any word character is followed by a full stop
(`Segmentation.MarkerIsWordDot`), and nearly every sentence-final line starts a
new paragraph. One might expect the lines
`["HEADER", "", "This is line one.", "This continues line one."]` to give two
paragraphs, with the second sentence continuing the first. Because both
sentences end in a letter and a full stop, both are markers, and the code
gives three: `["HEADER", "This is line one.", "This continues line one."]`.
`Segmentation.SentencesAreMarkers` proves the three-paragraph result.

## Model

| member | source | states |
|---|---|---|
| `Text.TrimStart` | server.js:52 | the result is the suffix of the input left after its longest all-white-space prefix, and it does not start with white space |
| `Text.TrimEnd` | server.js:52 | the result is the prefix of the input left before its longest all-white-space suffix, and it does not end with white space |
| `Text.Trim` | server.js:52 | `trim()` gives a string with no white space at either end, made only of input characters; it is empty exactly when the input is all white space; a string already trimmed is unchanged; the result is one slice `s[a..b]` of the input with only white space before and after it |
| `Text.StripBoth` | server.js:52 | dropping an all-white-space prefix, then an all-white-space suffix of what is left, leaves a slice of the original with only white space around it |
| `Text.Split` | server.js:52 | `split(/\r?\n/)` gives at least one line (the empty text gives one empty line); no line contains a line feed; every character of a line comes from the text (how `\r\n` and `\n` break lines is stated by `Text.SplitAfterLine`, `Text.SplitAfterCrLf` and `Text.JoinSplitNormalizes`) |
| `Text.SplitAfterCrLf` | server.js:52 | a line without a line feed followed by `\r\n` splits off as the first line without the carriage return, and the rest splits on its own |
| `Text.JoinSplitNormalizes` | server.js:52 | for every text, joining its lines with line feeds gives the text back with each `\r\n` turned into `\n`: the breaks are exactly the line feeds, each with the carriage return right before it |
| `Text.JoinSplit` | server.js:52 | for a text without carriage returns, joining its lines with line feeds gives the text back |
| `Text.SplitJoin` | server.js:52 | splitting lines joined with line feeds gives the same lines back, when no line holds a line feed or ends in a carriage return |
| `Text.SplitAfterLine` | server.js:52 | a line followed by a line feed splits off as the first line, and the rest splits on its own |
| `Text.SplitWithoutLineFeed` | server.js:52 | a text without a line feed is a single line, even if it holds carriage returns |
| `Text.Join` | server.js:116 | definition of `parts.join(sep)`; characterised by `Text.JoinSnoc`, `Text.JoinNonEmpty` and `Text.JoinSpaced`, and inverted by `Text.SplitJoin` |
| `Text.JoinSnoc` | server.js:116 | joining one more part adds the separator and that part at the end |
| `Text.JoinNonEmpty` | server.js:82 | parts whose first part is non-empty join to a non-empty string |
| `Text.JoinSpaced` | server.js:116 | `join('\n\n')` equals a join with single line feeds of the paragraphs with an empty line between each two |
| `Text.ToUpper` | server.js:73 | definition of ASCII `toUpperCase`; characterised by `Text.UpperFixedIffNoLower` |
| `Text.UpperFixedIffNoLower` | server.js:73 | a string equals its (ASCII) upper-case form exactly when it holds no lower-case letter |
| `Reconstruct.Separator` | server.js:38-43 | definition of what goes before an item: nothing when the previous baseline equals the item's or is unset (0), otherwise one line feed; characterised by `Reconstruct.RenderIsPieces` and `Reconstruct.NoBreakAfterZeroOrSame` |
| `Reconstruct.RenderFrom` | server.js:36-46 | definition of the loop as a fold from a given previous baseline; related to the closed form by `Reconstruct.RenderIsPieces` |
| `Reconstruct.Render` | server.js:36-46 | definition of the page text, the fold from an unset baseline; computed by `Reconstruct.RenderPageText` and characterised by `Reconstruct.RenderIsPieces` |
| `Reconstruct.RenderPageText` | server.js:36-46 | the loop returns the fold `Render` of the items; that is the items' strings in emission order, each preceded by one line feed exactly when a break is due; no items give the empty string |
| `Reconstruct.RenderIsPieces` | server.js:36-46 | the fold equals the items' strings concatenated in order, with one line feed before item i exactly when i > 0 and item i-1's baseline is non-zero and differs from item i's |
| `Reconstruct.SameLineJoinsPlainly` | server.js:38-39 | when each item follows one on the same baseline or on baseline 0, the page text is the plain concatenation of the strings |
| `Reconstruct.FirstItemStartsText` | server.js:36-39 | the page text starts with the first item's string: no break ever comes before it |
| `Reconstruct.NoItemsNoText` | server.js:36-46 | no items give the empty string |
| `Reconstruct.TwoLinesExample` | server.js:36-46 | items "Hello " and "World" on baseline 100, then "Next" on 200, give "Hello World\nNext" |
| `Reconstruct.NoBreakAfterZeroOrSame` | server.js:38-39 | for every item list, an item whose predecessor is on baseline 0 or on the item's own baseline gets no line break: its piece of the text is just its string |
| `Reconstruct.ZeroBaselineExample` | server.js:38 | one example: "a" on baseline 0 followed by "b" on baseline 7 gives "ab" |
| `Segmentation.IsMarker` | server.js:66 | definition of the marker test, one predicate per alternative of the regex; characterised by `Segmentation.MarkerIsWordDot` |
| `Segmentation.MarkerIsWordDot` | server.js:66 | the marker regex holds exactly when some word character is followed by a full stop; the anchored numeric alternative adds nothing |
| `Segmentation.IsHeading` | server.js:73 | definition of the heading test; characterised by `Segmentation.HeadingIffNoLower` |
| `Segmentation.Classify` | server.js:59-83 | definition of which of the four rules a line falls to, tried in source order |
| `Segmentation.Step` | server.js:59-83 | definition of one loop iteration; its effect per rule is stated by `Segmentation.MarkerOpensParagraph`, `Segmentation.HeadingStandsAlone`, `Segmentation.BlankLineSeparates` and `Segmentation.ContinuationsJoin` |
| `Segmentation.Segment` | server.js:54-90 | definition of the paragraphs of already trimmed lines, the loop run to the end plus the final push; characterised by `Partition.SegmentIsPartition` |
| `Segmentation.Paragraphs` | server.js:50-91 | definition of the function's result for a text; computed by `Segmentation.SplitTextIntoParagraphs` and characterised by `Partition.ParagraphsPartitionText` |
| `Segmentation.FormattedText` | server.js:116 | definition of `paragraphs.join('\n\n')`; inverted by `Segmentation.FormattedTextRoundTrip` |
| `Segmentation.HeadingIffNoLower` | server.js:73 | a line passes the heading test exactly when it is longer than 3 characters and has no lower-case letter, so digit-only and punctuation-only lines count |
| `Segmentation.Lines` | server.js:52 | the trimmed lines: at least one, each trimmed, none with a line feed |
| `Segmentation.SplitTextIntoParagraphs` | server.js:50-91 | the loop returns the fold `Paragraphs` of the text; every paragraph is non-empty, trimmed and free of line feeds; a text of white space only gives no paragraphs |
| `Segmentation.ParagraphsAreClean` | server.js:52-91 | every output paragraph is non-empty, has no white space at either end and contains no line feed |
| `Segmentation.BlankTextNoParagraphs` | server.js:52-63 | the empty text, and any text made only of white space and line breaks, gives no paragraphs |
| `Segmentation.RunBehind` | server.js:54-88 | paragraphs already pushed are never changed or removed by later lines |
| `Segmentation.RunAppend` | server.js:57-84 | scanning `a + b` is scanning `b` from the state the scan of `a` ended in |
| `Segmentation.NoLinesNoParagraphs` | server.js:86-90 | no lines give no paragraphs |
| `Segmentation.BlankLineSeparates` | server.js:59-63 | the lines before a blank line and the lines after it are segmented independently, and the results are concatenated |
| `Segmentation.BlankRunSeparates` | server.js:59-63 | a run of N >= 1 blank lines separates the lines around it in the same way |
| `Segmentation.BlankRunIsOneBlank` | server.js:59-63 | a run of N >= 1 blank lines gives the same paragraphs as a single blank line |
| `Segmentation.HeadingStandsAlone` | server.js:73-79 | a line that falls to the heading rule is its own paragraph, between the paragraphs of the lines before it and those of the lines after it; it is never merged with either |
| `Segmentation.MarkerOpensParagraph` | server.js:66-71 | a marker line flushes the pending paragraph and opens a new one that begins with the marker line |
| `Segmentation.OpenedParagraphKeepsHead` | server.js:66-83 | a paragraph opened by a line keeps that line as its start while lines are added, and stays first once it is pushed |
| `Segmentation.SingleLine` | server.js:57-90 | a single non-blank line is one paragraph, whichever rule it falls to |
| `Segmentation.TwoLineParagraph` | server.js:81-83 | the two-line case: a continuation line after a marker or continuation line, as the whole input, is joined to it with one space |
| `Segmentation.ContinuationsJoin` | server.js:66-83 | after a marker or continuation line and any number of continuation lines, the pending paragraph is all of them joined with single spaces and nothing has been pushed |
| `Segmentation.ContinuedParagraph` | server.js:66-90 | such lines, as the whole input, make exactly one paragraph: their space-join |
| `Segmentation.SegmentSpaced` | server.js:59-90 | non-empty lines with one blank line between each two segment back to exactly those lines |
| `Segmentation.LinesOfTrimmedLines` | server.js:52 | when the split pieces of a text are already trimmed, they are its lines |
| `Segmentation.FormattedTextRoundTrip` | server.js:116 | segmenting `paragraphs.join('\n\n')` of clean paragraphs gives the same paragraph list |
| `Segmentation.SegmentationIdempotent` | server.js:109-116 | segmenting the formatted output of a segmentation gives the same paragraphs again |
| `Segmentation.SentencesKinds` | server.js:66-73 | "HEADER" is a heading; "This is line one." and "This continues line one." are markers |
| `Segmentation.SentencesAreMarkers` | server.js:66-79 | `["HEADER", "", "This is line one.", "This continues line one."]` gives three paragraphs, since both sentences are markers |
| `Segmentation.NumberedItemsKinds` | server.js:66-73 | "1. First item" and "2. Second item" are markers; "continued text" is a continuation line |
| `Segmentation.NumberedItemsExample` | server.js:57-88 | `["1. First item", "continued text", "2. Second item"]` gives `["1. First item continued text", "2. Second item"]` |
| `Segmentation.OneLineOneParagraph` | server.js:50-91 | a text with no line feed that is not all white space gives one paragraph, its trimmed self |
| `Partition.CloseKeepsRuns` | server.js:86-88 | closing the pending run pushes exactly the pending paragraph, if any |
| `Partition.AppendLine` | server.js:57-84 | one more line is one more loop step, and adds that line to the non-blank lines if it is not blank |
| `Partition.AppendLineScan` | server.js:57-84 | one more line is one more loop step |
| `Partition.AppendLineNonBlank` | server.js:59 | one more line adds itself to the non-blank lines exactly when it is not blank |
| `Partition.CloseFlatten` | server.js:86-88 | closing the pending run appends its lines after those of the closed runs |
| `Partition.CloseJoins` | server.js:86-88 | closing a pending run that starts with a non-blank line pushes its join exactly when it is non-empty, as the final push does |
| `Partition.StepCovers` | server.js:57-84 | every rule keeps each non-blank line seen in exactly one run, in order |
| `Partition.CoversAfter` | server.js:59-83 | for each place the next line can go (nowhere if blank; a new run; a run of its own; the pending run), the runs still cover exactly the non-blank lines, in order |
| `Partition.StepWellShaped` | server.js:57-84 | every rule keeps the runs of the allowed shape: non-empty, no blank line, only continuation lines after the first, a heading alone |
| `Partition.StepMirrors` | server.js:57-84 | every rule moves the scan's state (`currentParagraph`, `paragraphs`) exactly as it moves the runs |
| `Partition.GroupStepKeepsInv` | server.js:57-84 | each loop step keeps the paragraphs equal to the space-joins of runs that cover the non-blank lines seen so far |
| `Partition.SegmentIsPartition` | server.js:57-88 | the paragraphs are, in order, the single-space joins of consecutive runs of the non-blank lines; the runs cover each non-blank line exactly once; only a run's first line may be a marker or heading, and a heading is always alone; so there are at most as many paragraphs as non-blank lines |
| `Partition.ParagraphsPartitionText` | server.js:50-91 | the same partition for a whole text and its non-blank trimmed lines: joins of runs, exact coverage, every run of the shape the rules allow, the count bound |
| `Partition.FlattenEmpty` | server.js:57-88 | runs of the shape the rules produce cover no line only when there are no runs |
| `Partition.NoParagraphsIffAllBlank` | server.js:50-91 | no non-blank line is lost: a text gives no paragraphs exactly when all its trimmed lines are blank |

## Left out

- The Express app, its routes, CORS and the listener (server.js:10-14, 94-125, 166-189): HTTP plumbing.
- Reading the uploaded file, the `%PDF` signature check and deleting the temporary file (server.js:16-27, 95-104, 122-124): file-system I/O.
- `pdfParse` and `pageData.getTextContent` with its promise (server.js:19-21, 30-35): a foreign library. The model starts from the list of items that `getTextContent` delivers; how the library concatenates the pages' texts is not part of this model.
- `getChatCompletion` and the call to the OpenAI API (server.js:127-164): a network client.
- Floating-point baselines: NaN, `-0`, `undefined` entries and the loose `==` at server.js:38. The baseline is an integer compared exactly, with 0 as the falsy value.
- Items whose `str` is not a string: JavaScript appends `String(item.str)`, which is `"undefined"` for a missing field, `"null"` for `null` and the digits for a number (a Symbol throws). Every item's string is a string here.
- `trim` strips only ASCII white space (tab, line feed, vertical tab, form feed, carriage return, space). JavaScript also strips no-break space, the byte-order mark, the line and paragraph separators and the other Unicode space separators.
- `toUpperCase` maps only `a`-`z`. Full Unicode case mapping also changes other characters: non-ASCII lower-case letters such as `é`, title-case letters such as `ǅ`, and characters such as `ⅰ` and `ⓐ`. So the model's heading test can differ from JavaScript's on any line holding a non-ASCII character that `toUpperCase` changes.
- Lengths are counted in characters, not in UTF-16 code units as JavaScript does; the two differ only outside the Basic Multilingual Plane.
- `console.log` and `console.error` calls: logging.
