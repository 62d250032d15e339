# WechatArt2Md text extraction, modelled in Dafny

WechatArt2Md turns a WeChat article page into Markdown. Once the HTML tags are
stripped, `extractText` finds out which lines of the remaining text are the article
body. It uses a line-density heuristic:

1. The reduced text is split at line feeds. In every line, each run of whitespace
   becomes one space, and the line is trimmed.
2. Captions are blanked. A caption is a line of 1 to 29 UTF-16 units whose two
   neighbours are both empty.
3. The density scan records the total length of the window of three consecutive
   lines (`blockHeight = 3`) starting at each line `i < n - 3`. The window made of the
   last three lines is not recorded, so the last line counts in no window.
4. `FindTextStart` finds the first window longer than 150 units (`threshold`) whose
   next window is not empty. It returns 0 when there is none. `FindTextEnd` finds the
   first pair of empty windows after a start, or else returns the last line.
5. `GetText` emits every non-empty line of a block, each followed by `"\n\n"`.
   Single-block mode emits the first block only. Joined-blocks mode keeps finding the
   next start after each end and appends every block in document order. When no start
   is found, the content is the fixed text `未能提取到正文!`.

The model has five modules:

- `LineNormalizer` (`lines.dfy`): splitting, whitespace collapsing and trimming,
  caption suppression, as pure functions with their laws.
- `DensityScanner` (`density.dfy`): the window sums.
- `BoundaryDetector` (`boundary.dfy`): the start and end searches and the sentinel.
- `ContentAssembler` (`assembly.dfy`): which blocks are selected in each mode, and
  the text they produce.
- `Extraction` (`extractor.dfy`): the class `WechatArt2Md`. It has the source's
  fields (`textBody`, `lines`, `blockLen`, `textStart`, `textEnd`, `content`,
  `joinMethod`). Its methods do the same in-place passes, nested scans and `while`
  loop with `break` as the source. Each one is proved against the pure functions.

Some modelling decisions:

- `String.Length` counts UTF-16 code units. `Utf16Length` counts a character outside
  the Basic Multilingual Plane as two units.
- `IsSpace` lists the characters that .NET's `\s` and `String.Trim` treat as
  whitespace.
- The sentinel quirk is kept exactly as the code has it. A real start at window 0
  cannot be told apart from "not found" (WechatArt2Md.cs:138, :149, :171).
  `SentinelFromZero`, `StartAtFirstWindowNotFound` and `StartAtFirstWindowExample`
  describe it.
- `ExtractText` runs `PrepareLines` (split, normalise, blank captions), then
  `ScanDensity` and `AssembleContent`, in the order of `extractText`. `textStart` and
  `textEnd` are nothing but scan positions, and their final values are stated as well.
- The join loop's condition `textEnd < lines.Length` always holds at the loop head.
  The loop invariant `0 <= textEnd <= textStart`, with `textStart` a window index,
  shows this, so the loop leaves only through its `break`. It terminates because
  `textStart` strictly increases (`decreases lines.Length - textStart`).

## Model

| member | source | states |
|---|---|---|
| LineNormalizer.IsSpace | WechatArt2Md.cs:116 | defines the whitespace set of `\s` and `Trim`: tab, line feed, vertical tab, form feed, carriage return, space, U+0085, U+00A0, U+1680, U+2000 to U+200A, U+2028, U+2029, U+202F, U+205F and U+3000 |
| LineNormalizer.Utf16Length | WechatArt2Md.cs:121-122 | a line's length is at least its number of characters, and is 0 exactly for the empty line |
| LineNormalizer.Split | WechatArt2Md.cs:114 | splitting at line feeds always gives at least one piece |
| LineNormalizer.SplitPiecesHaveNoLineFeed | WechatArt2Md.cs:114 | no piece of the split holds a line feed |
| LineNormalizer.SplitAppend | WechatArt2Md.cs:114 | splitting `a + "\n" + b` gives the pieces of `a` followed by those of `b` |
| LineNormalizer.JoinSplit | WechatArt2Md.cs:114 | joining the pieces with line feeds gives the text back |
| LineNormalizer.SplitJoin | WechatArt2Md.cs:114 | splitting the join of line-feed-free pieces gives the pieces back |
| LineNormalizer.LeadingSpaces | WechatArt2Md.cs:116 | the leading whitespace that `Trim` drops: all whitespace, up to the first non-whitespace character |
| LineNormalizer.TrimmedLength | WechatArt2Md.cs:116 | the trailing whitespace that `Trim` drops: everything after it is whitespace, and the character before it is not |
| LineNormalizer.Trim | WechatArt2Md.cs:116 | `Trim()` removes only a whitespace prefix (the leading whitespace) and a whitespace suffix: the result is the slice of the line in between, it has no whitespace at either end, and it keeps every non-whitespace character, in order |
| LineNormalizer.TrimOfTrimmed | WechatArt2Md.cs:116 | `Trim()` leaves a line with no whitespace at either end unchanged |
| LineNormalizer.Collapse | WechatArt2Md.cs:116 | replacing whitespace runs by a space never lengthens a line, gives the empty line only for the empty line, and keeps whether the line starts with whitespace; `CollapseSeparates` states what happens to each run |
| LineNormalizer.CollapseSeparates | WechatArt2Md.cs:112-116 | a whitespace run between two words (or at a line end next to a word) becomes exactly one space: `Collapse(a + w + b) == Collapse(a) + " " + Collapse(b)` |
| LineNormalizer.CollapseEndsInWord | WechatArt2Md.cs:116 | a line ending in a non-whitespace character still ends in a non-whitespace character after collapsing |
| LineNormalizer.CollapseIsCollapsed | WechatArt2Md.cs:116 | after collapsing, every whitespace character is a plain space and the next character is not whitespace |
| LineNormalizer.CollapseKeepsText | WechatArt2Md.cs:116 | collapsing keeps every non-whitespace character, in order |
| LineNormalizer.TrimCollapsed | WechatArt2Md.cs:116 | trimming a collapsed line leaves no whitespace at either end and keeps it collapsed |
| LineNormalizer.NormalizeLine | WechatArt2Md.cs:115-116 | `Regex.Replace(lines[i], @"(?is)\s+", " ").Trim()`: the result has single plain spaces only, none at its ends, and keeps every non-whitespace character, in order |
| LineNormalizer.NormalizeLineSeparates | WechatArt2Md.cs:112-116 | two words separated by any whitespace run normalise to the two normalised words with exactly one space between them, so the spaces count in every later length test |
| LineNormalizer.NormalizeAll | WechatArt2Md.cs:115-116 | defines the lines after the normalisation loop: line `i` is `NormalizeLine` of the original line `i` |
| LineNormalizer.CollapseOfCollapsed | WechatArt2Md.cs:116 | collapsing a collapsed line changes nothing |
| LineNormalizer.NormalizeLineFixesNormalized | WechatArt2Md.cs:115-116 | a normalised line is left unchanged by normalisation |
| LineNormalizer.NormalizeLineIdempotent | WechatArt2Md.cs:115-116 | normalising twice is normalising once |
| LineNormalizer.NormalizedHasNoLineFeed | WechatArt2Md.cs:114-116 | a normalised line holds no line feed |
| LineNormalizer.CaptionLimit | WechatArt2Md.cs:121 | the caption bound: a caption is shorter than 30 UTF-16 units (`lines[i].Length < 30`) |
| LineNormalizer.IsCaption | WechatArt2Md.cs:121-122 | the caption test `lines[i].Length > 0 && lines[i].Length < 30 && 0 == lines[i - 1].Length && 0 == lines[i + 1].Length`; a caption is a non-empty line of fewer than 30 characters between two empty lines |
| LineNormalizer.Suppress | WechatArt2Md.cs:119-124 | the caption rule applied to every interior line at once, on the original lines; it keeps the number of lines |
| LineNormalizer.SuppressChanges | WechatArt2Md.cs:119-124 | the first and last line never change; a line changes exactly when it is an interior caption, and then it becomes empty |
| LineNormalizer.NoCaptionAfterSuppress | WechatArt2Md.cs:119-124 | no caption is left after suppression |
| LineNormalizer.SuppressIdempotent | WechatArt2Md.cs:119-124 | suppressing a second time changes nothing |
| LineNormalizer.PreparedLines | WechatArt2Md.cs:114-124 | defines `lines` after the split, the normalisation loop and the caption loop: the captions of the normalised pieces blanked |
| LineNormalizer.PreparedLinesNormalized | WechatArt2Md.cs:114-124 | the prepared text has at least one line, and every line is normalised and free of line feeds |
| DensityScanner.BlockHeight | WechatArt2Md.cs:15 | the window height `blockHeight = 3` |
| DensityScanner.SumLen | WechatArt2Md.cs:129-131 | defines the inner loop's `len`: the UTF-16 lengths of the window's lines added up in order |
| DensityScanner.Density | WechatArt2Md.cs:127-133 | the scan `for (i = 0; i < lines.Length - blockHeight; i++)` summing `lines[i + j].Length` for `j < blockHeight`: there are max(0, n - 3) windows |
| DensityScanner.DensityShape | WechatArt2Md.cs:127-133 | window i is the sum of the lengths of lines i, i+1 and i+2, and is at least 0 |
| DensityScanner.LastLineIgnored | WechatArt2Md.cs:127 | replacing the last line leaves every window unchanged: the window of the last three lines is not recorded |
| DensityScanner.DensitySlide | WechatArt2Md.cs:127-133 | moving the window by one line adds the line that enters and takes away the line that leaves |
| DensityScanner.DensityZero | WechatArt2Md.cs:127-133 | a window is 0 exactly when its three lines are empty |
| BoundaryDetector.Threshold | WechatArt2Md.cs:16 | the density bound `threshold = 150` |
| BoundaryDetector.IsStart | WechatArt2Md.cs:168 | the start test `blockLen[i] > threshold && blockLen[i + 1] > 0` |
| BoundaryDetector.IsGap | WechatArt2Md.cs:179 | the end test `0 == blockLen[i] && 0 == blockLen[i + 1]`; a gap is never a start |
| BoundaryDetector.StartOrZero | WechatArt2Md.cs:169-171 | FindTextStart's result: the start found, or 0 when there is none, so 0 means either no start or a start at window 0 |
| BoundaryDetector.FirstStart | WechatArt2Md.cs:164-172 | the smallest i at or after `from`, with i + 1 a window, window i above 150 and window i+1 non-empty; none when no such i exists |
| BoundaryDetector.FirstGap | WechatArt2Md.cs:175-183 | the smallest i at or after `from`, with windows i and i+1 both 0; none when no such i exists |
| BoundaryDetector.EndOf | WechatArt2Md.cs:175-183 | after a start index, the end is strictly after that start and is a line index |
| BoundaryDetector.SentinelFromLaterIndex | WechatArt2Md.cs:148-150 | a start search from index 1 or later returns 0 exactly when nothing was found |
| BoundaryDetector.SentinelFromZero | WechatArt2Md.cs:136-139 | from index 0, the result is 0 exactly when there is no start or window 0 is itself a start |
| BoundaryDetector.GapIsFourBlankLines | WechatArt2Md.cs:174-183 | a gap is exactly four consecutive empty lines |
| BoundaryDetector.StartIsDenseText | WechatArt2Md.cs:163-172 | a start is three lines longer than 150 units together, followed by a non-empty line among the next three |
| ContentAssembler.NotFound | WechatArt2Md.cs:139 | the fixed content `未能提取到正文!` written when no start is found |
| ContentAssembler.Paragraphs | WechatArt2Md.cs:188-192 | the kept lines are at most as many as the lines, and each is a non-empty line of the input |
| ContentAssembler.ParagraphsAppend | WechatArt2Md.cs:188-192 | the kept lines of two parts are the kept lines of each, in order |
| ContentAssembler.Render | WechatArt2Md.cs:190-193 | appends each line and `"\n\n"`; the result is empty exactly when there are no lines |
| ContentAssembler.EmittedText | WechatArt2Md.cs:185-194 | GetText's result for the lines `[s, e)`: the rendering of their non-empty lines (RenderRoundTrip and SegmentsTextRender state what it contains) |
| ContentAssembler.RenderAppend | WechatArt2Md.cs:190-193 | rendering two runs of lines is rendering each, in order |
| ContentAssembler.RenderRoundTrip | WechatArt2Md.cs:185-194 | splitting the emitted text at line feeds and dropping empty lines gives back exactly the emitted lines |
| ContentAssembler.Segments | WechatArt2Md.cs:144-153 | the blocks the join loop visits: the first one starts at the given start, every block starts at a start point, ends strictly after its start at a line index, and lies wholly before every later block |
| ContentAssembler.SegmentsText | WechatArt2Md.cs:144-158 | defines what `content += GetText()` accumulates over the visited blocks: their texts, one after the other, in order |
| ContentAssembler.SelectedLines | WechatArt2Md.cs:144-158 | defines the lines those blocks emit: the non-empty lines of each block, block after block |
| ContentAssembler.JoinStep | WechatArt2Md.cs:146-151 | one turn of the join loop appends the first block's text; then either the whole text is done or the blocks from the next start remain |
| ContentAssembler.SegmentsCover | WechatArt2Md.cs:144-153 | joining misses no start: every start at or after the first block's start lies inside a visited block |
| ContentAssembler.SegmentsLastEnd | WechatArt2Md.cs:146-150 | the block whose end has no start after it is the last one the join loop visits |
| ContentAssembler.Selection | WechatArt2Md.cs:136-159 | every selected block lies within the lines |
| ContentAssembler.FinalStart | WechatArt2Md.cs:136-158 | defines the final `textStart`: the block's start in single-block mode, and 0 when nothing is found or after the join loop, which leaves only once the start search gives 0 |
| ContentAssembler.FinalEnd | WechatArt2Md.cs:136-158 | defines the final `textEnd`: the end of the last selected block, or 0 when nothing is found |
| ContentAssembler.Assemble | WechatArt2Md.cs:136-159 | the content for given lines and windows: the not-found text when FindTextStart(0) gives 0, otherwise the text of the selected blocks one after the other (the lemmas below state its properties) |
| ContentAssembler.Extract | WechatArt2Md.cs:110-160 | the content extractText produces from the reduced page text, in either mode (ExtractedLines states what it contains) |
| ContentAssembler.NoDenseWindowNotFound | WechatArt2Md.cs:136-139 | when no window exceeds 150, the content is the not-found text and no block is selected |
| ContentAssembler.ShortTextNotFound | WechatArt2Md.cs:127-139 | with four lines or fewer, the content is the not-found text and no block is selected |
| ContentAssembler.StartAtFirstWindowNotFound | WechatArt2Md.cs:136-139 | a real start at window 0 also gives the not-found text |
| ContentAssembler.StartAtFirstWindowExample | WechatArt2Md.cs:136-139 | five lines whose window 0 is a real start give the not-found text |
| ContentAssembler.SelectionOrdered | WechatArt2Md.cs:144-158 | in both modes, every block starts at a start point and ends after it at a line index, and blocks are disjoint and in document order |
| ContentAssembler.SingleIsFirstBlock | WechatArt2Md.cs:154-158 | single-block mode selects exactly the first block of joined-blocks mode, so its content is a prefix of the joined content |
| ContentAssembler.SegmentsTextRender | WechatArt2Md.cs:185-194 | the text of several blocks is the rendering of their non-empty lines, in order |
| ContentAssembler.SelectedLinesFromText | WechatArt2Md.cs:185-194 | every emitted line is a non-empty line of the text |
| ContentAssembler.ExtractedLines | WechatArt2Md.cs:110-160 | when a start is found, reading the content back line by line without blank lines gives exactly the selected lines |
| Extraction.WechatArt2Md.constructor | WechatArt2Md.cs:42-58 | the starting state: given text and mode, positions 0, no windows, empty content |
| Extraction.WechatArt2Md.ExtractText | WechatArt2Md.cs:110-160 | the lines become the prepared lines of the text, blockLen becomes their window sums, content becomes the extraction result, and textStart and textEnd are left where the assembly leaves them |
| Extraction.WechatArt2Md.PrepareLines | WechatArt2Md.cs:114-124 | lines becomes a new array holding the pieces of the text split at line feeds, normalised and with the captions blanked |
| Extraction.WechatArt2Md.NormalizeLines | WechatArt2Md.cs:114-116 | each line is replaced, in place, by its normalised form |
| Extraction.WechatArt2Md.SuppressCaptions | WechatArt2Md.cs:119-124 | the one-after-the-other in-place pass gives the same lines as applying the caption rule to the original lines all at once |
| Extraction.WechatArt2Md.ScanDensity | WechatArt2Md.cs:127-133 | blockLen gets the window sums of the lines appended |
| Extraction.WechatArt2Md.AssembleContent | WechatArt2Md.cs:136-159 | content becomes the not-found text, the first block's text, or every visited block's text joined, depending on the sentinel and the mode; textEnd is left at the end of the last selected block (0 when nothing is found), and textStart at the single block's start, or at the sentinel 0 after the join loop or when nothing is found |
| Extraction.WechatArt2Md.FindTextStart | WechatArt2Md.cs:164-172 | returns the first start at or after `index`, or 0 when there is none |
| Extraction.WechatArt2Md.FindTextEnd | WechatArt2Md.cs:175-183 | returns the first gap strictly after `index`, or the last line index when there is none |
| Extraction.WechatArt2Md.GetText | WechatArt2Md.cs:185-194 | returns the non-empty lines of `[textStart, textEnd)` in order, each followed by `"\n\n"` |

## Left out

- `GetHTML` (WechatArt2Md.cs:258-276) is not modelled: it is HTTP I/O.
- `extractTitle`, `extractBody`, `removeTags` and `extractPreview` are not modelled
  (WechatArt2Md.cs:71-108, :196-203). They are regular-expression tag stripping, with
  lazy matching and a lookahead in .NET's regex engine.
- `convert2MarkDown`, `replaceMdImg`, `convertMdImg`, `removeHiddenText` and
  `removeBadTags` are not modelled (WechatArt2Md.cs:205-256). They are find-and-replace
  steps on the output.
- Extraction.WechatArt2Md.constructor: takes the reduced page text directly. The
  source fetches a URL and runs the whole `extract` pipeline from its constructor
  (WechatArt2Md.cs:42-69). `ExtractText` is the pipeline step that is modelled. Only
  the first `extract()` call, the one the constructor makes, is modelled, so
  `ExtractText` requires the constructor's starting state.
- Extraction.WechatArt2Md.ExtractText: a repeated call of the public `extract()`
  (WechatArt2Md.cs:61) is not modelled. Only the constructor resets `blockLen`,
  `textEnd` and `content` (WechatArt2Md.cs:47-52). A second run would append new window
  sums after the old ones in `blockLen` (WechatArt2Md.cs:132), would append the
  extracted text to the old `content` (WechatArt2Md.cs:147, :157), and would start the
  join loop with the old `textEnd`.
- The fields `html`, `title`, `webPreview`, `mdContent` and `pdfContent` are not
  modelled. Only the steps left out above use them.
- DensityScanner.Density: window sums are unbounded integers. The source's 32-bit
  `int` would wrap only for a window of more than 2^31 - 1 UTF-16 units.
- LineNormalizer.Utf16Length: a Dafny `string` cannot hold a lone UTF-16 surrogate,
  so strings that hold one are not modelled.
- Joined-blocks extraction is not claimed to be idempotent when re-run on its own
  output. The code does not have this property. Its output begins with article text,
  so a dense window 0 gives the sentinel and the not-found text
  (`StartAtFirstWindowNotFound`). Short paragraphs between the `"\n\n"` breaks would
  also be blanked as captions.
