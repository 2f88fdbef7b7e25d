# XinWiki document reader: models and proofs

This project models the parts of the document reader, the dataset tool and the
stream clients that carry real algorithms, and proves what they promise. Every
module is one component; its name is the file name.

| component | modules |
|---|---|
| PDF text layer: columns, lines, words, headings | `Columns`, `LineBands`, `LineText`, `LineWords`, `Layout`, `LayoutLaws` |
| PDF clean-up and figure selection | `RunningLines`, `ChartDebris`, `ImageSelect` |
| MHTML and Markdown normalisers, image paths | `MarkdownNormalizer`, `MarkdownTables`, `ImagePaths` |
| DOCX page mapping, page workers, document text | `DocxPages`, `DocxWorkers`, `DocxText` |
| parser combinators | `ChainParsers` |
| process-wide parser limiter | `Limiter`, `LimiterRuns` |
| answer generation with crash and resume | `QaResume` |
| spreadsheets: repair, opening, merge filling, chunks | `XlsxRepair`, `XlsxTexts`, `ExcelOpen`, `MergeFill`, `SheetChunks` |
| event-stream readers (Go and Python), and the standard they read | `EventStreams`, `EventStandard` |
| shared vocabulary | `Options`, `Seqs`, `Text`, `Glyphs` |

How the models are built:

- Coordinates, sizes and ratios are real numbers; `0.6 * n` is `3 n / 5` and
  `0.4 * n` is `2 n / 5`. Stable sorting is a function with the usual facts.
- Loops and updated fields of the source are methods, loops and classes; each is
  proved equal to a specification function, and the laws are lemmas about that
  function.
- Regular expressions and foreign libraries are parameters: predicates on lines,
  a `Reply` for each model call, oracles for detection, conversion, engines and
  JSON decoding. Where a law needs a fact about one, the lemma requires it.
- Threads are an interleaving of atomic steps (`Limiter.Step`), a crash may fall
  between any two file writes (`QaResume.Run`), and page workers finish in any
  order (`DocxWorkers.FanOutDeterministic`).

What the code does that its own text, or a reader, may not expect:

- The running-line rule speaks of 60% of the pages; `int(0.6 n)` gives it only at
  multiples of five, and lets half the pages do at 4, 6 and 8
  (`RunningLines.ThresholdSixty`, `FourLinesCanGo`). Which documents meet the rule
  is `RunningLines.SixtyPercentIff`.
- The depth limit can stop a useful column cut from thirteen columns on
  (`Columns.CapCanBeHit`); when exactly, is `Columns.SplitIsSweepIffShallow`.
- Normalising a table twice can differ from normalising it once
  (`MarkdownTables.NotAlwaysIdempotent`); when exactly it does not is
  `BlockIdempotentIff` for a block and `DocumentIdempotentIff` for a document.
- A DOCX image that cannot be saved moves later images of its page forward
  (`DocxWorkers.ImageCanMove`); when exactly, is `DocxWorkers.RebuildInPlaceIff`.
- The package repair applies again and again to a package whose manifest mention is
  not in a self-closing element (`XlsxRepair.RepairNeedNotStop`,
  `RepairStopsIff`). The open loop ends all the same, on every file and within
  eight turns (`ExcelOpen.LoopEnds`): merge filling reads with the engine's own
  loader, so it raises where the engine would miss the part.
- The stream readers depart from section 9.2.6 of the WHATWG HTML Standard, which
  drops one space after a field's colon, joins several data lines, takes `message`
  for a missing type and resets both buffers at every blank line. `ContinueStream`
  compares the type with its space, needs a type, keeps the last data line only, and
  carries the buffers of an event it does not dispatch into the next: left-over
  data can be delivered by a later event, and a left-over type stands in for a
  missing one. When each reader agrees with the standard is
  `EventStandard.ReaderAgreesIff`, `ContinueAgreesIff` and `PyAgreesIff`.
- A pair file saved from an empty list has no columns; the next run then starts
  from nothing, and can erase answers that no pair refers to
  (`QaResume.AnswerCanBeErased`); from which files no run loses an answer is
  `QaResume.AnswersSurviveIff`.
- Two nameless MHTML images with one generated name would overwrite each other; a
  walk keeps every image exactly when no generated path is taken already
  (`ImagePaths.WalkKeepsAllIff`).

## Model

| member | source | states |
|---|---|---|
| `Columns.FindSplit` | docreader/parser/pdf_parser.py:653-669 | the scan over glyphs sorted by left edge computes the specified widest cut |
| `Columns.GutterListLists` | docreader/parser/pdf_parser.py:653-669 | the scan meets exactly the maximal full-height strips of at least `min_gap`, left to right, whatever the glyph order |
| `Columns.WidestCutIs` | docreader/parser/pdf_parser.py:653-669 | the returned cut is the middle of the leftmost widest gutter; there is none exactly when the page has no gutter |
| `Columns.EmptyHalfNeverHappens` | docreader/parser/pdf_parser.py:680-683 | a chosen cut leaves glyphs on both sides, so the one-side-empty fallback never fires |
| `Columns.SplitRefinesSweep` | docreader/parser/pdf_parser.py:672-686 | unless the depth limit stops a cut, the recursion returns exactly the columns of one left-to-right pass that cuts at every gutter |
| `Columns.NoExtraColumns` | docreader/parser/pdf_parser.py:672-686 | at any depth the recursion never has more columns than gutters plus one |
| `Columns.CapLosesColumns` | docreader/parser/pdf_parser.py:674-675 | whenever the depth limit stops a cut, at least one column is lost |
| `Columns.SplitIsSweepIff` | docreader/parser/pdf_parser.py:672-686 | recursion and sweep agree if and only if the limit stops no cut |
| `Columns.CapHitIff` | docreader/parser/pdf_parser.py:674-675 | whether the limit stops a cut is decided by the gutter widths: the tree that halves the gutter list at its widest must be too high |
| `Columns.SplitIsSweepIffShallow` | docreader/parser/pdf_parser.py:672-686 | recursion and sweep agree if and only if that tree has at most eleven levels |
| `Columns.FewColumnsNoCap` | docreader/parser/pdf_parser.py:674-675 | up to twelve columns the limit cannot matter |
| `Columns.CapCanBeHit` | docreader/parser/pdf_parser.py:672-686 | a page 200 units wide and thirteen columns, with the minimum gap the page call computes, on which the limit does lose one |
| `Columns.ColumnsPartition` | docreader/parser/pdf_parser.py:672-686 | with or without the limit: no column is empty, every glyph is in exactly one, and each column keeps the input order |
| `Columns.ColumnsApart` | docreader/parser/pdf_parser.py:676-686 | every glyph of a later column lies at least `min_gap` right of every glyph of an earlier one |
| `Columns.AtMostTwentySixColumns` | docreader/parser/pdf_parser.py:642-650 | glyphs that pass the page filter give at most 26 columns, however many there are (how far apart columns are is `PageColumnsApart`) |
| `Columns.PageColumnsApart` | docreader/parser/pdf_parser.py:672-686 | on the page call, glyphs of different columns are at least 2.5 times the glyph height and at least 4% of the page width apart |
| `Columns.WideStripsSeparate` | docreader/parser/pdf_parser.py:672-686 | unless the depth limit stops a cut, every full-height strip wide enough for both is a column boundary: no column has glyphs on both sides of it |
| `Columns.OneColumnIff` | docreader/parser/pdf_parser.py:672-686 | a page with glyphs stays one column if and only if it has no such strip |
| `Columns.TwelveColumnsAreSafe` | docreader/parser/pdf_parser.py:672-686 | on the page call, twelve columns or fewer never meet the depth limit |
| `LineBands.BandLoop` | docreader/parser/pdf_parser.py:799-813 | the grouping loop computes the greedy bands |
| `LineBands.BandsFlatten` | docreader/parser/pdf_parser.py:799-813 | the lines, laid end to end, are the sorted glyphs; none is empty |
| `LineBands.BandSpread` | docreader/parser/pdf_parser.py:803-811 | every centre of a line lies within the tolerance below the line's first |
| `LineBands.LeadersApart` | docreader/parser/pdf_parser.py:803-811 | first glyphs of any two lines are more than the tolerance apart |
| `LineBands.GreedyBandingIsOptimal` | docreader/parser/pdf_parser.py:799-813 | no cover of the glyph centres by windows of the tolerance's height uses fewer windows than there are lines |
| `LineBands.BandsCover` | docreader/parser/pdf_parser.py:799-813 | the lines themselves are such a cover, so the number of lines is the minimum |
| `LineBands.TolerancePositive` | docreader/parser/pdf_parser.py:796-797 | the tolerance, half the median glyph height, is positive for every input |
| `LineText.JoinLine` | docreader/parser/pdf_parser.py:767-789 | the joining loop computes the specified text |
| `LineText.JoinConserves` | docreader/parser/pdf_parser.py:767-789 | apart from white space the text is exactly the glyphs' characters, each once, in order |
| `LineText.JoinLineSplits` | docreader/parser/pdf_parser.py:767-789 | on glyphs without white space, splitting the text at spaces gives back the words cut exactly at the wide gaps |
| `LineWords.LineReadsInWords` | docreader/parser/pdf_parser.py:767-789 | with white glyphs among them: the words of the text are the runs of inked glyphs with no wide gap inside, and two neighbouring ones are parted by white glyphs or by nothing but a wide gap |
| `LayoutLaws.MedianIsMiddle` | docreader/parser/pdf_parser.py:797-797 | the median is the middle number, or half-way between the two middle ones, by counting how many are smaller |
| `LayoutLaws.ToleranceIsHalfHeight` | docreader/parser/pdf_parser.py:796-805 | the line tolerance is half the middle height of the glyphs that have one, 0.5 when none has |
| `LayoutLaws.WordGapIsShareOfWidth` | docreader/parser/pdf_parser.py:771-773 | the word gap is the configured share of the middle width of the glyphs that have one, of 1.0 when none has |
| `Layout.GroupLines` | docreader/parser/pdf_parser.py:792-823 | lines with their text and median height |
| `Layout.GroupLinesWithChars` | docreader/parser/pdf_parser.py:407-444 | the second copy of the routine gives the same texts and heights; its glyphs and boxes belong to those texts |
| `Layout.MergeOrphanPunctuation` | docreader/parser/pdf_parser.py:739-764 | the merging loop computes the specified lines |
| `Layout.MergeConserves` | docreader/parser/pdf_parser.py:739-764 | merging keeps every visible character, in order |
| `LayoutLaws.MergedInGroups` | docreader/parser/pdf_parser.py:745-764 | merging attaches to a line exactly the lines of bare punctuation that follow it, one by one, and keeps its height |
| `Layout.MergeSettles` | docreader/parser/pdf_parser.py:748-763 | after merging only the first line of a column can still be bare punctuation, and no line is blank |
| `Layout.FewHeadings` | docreader/parser/pdf_parser.py:852-860 | at most two fifths of a column's lines, or one, become headings; none when detection is off; no line is added or lost |
| `LayoutLaws.LevelIs` | docreader/parser/pdf_parser.py:832-850 | a line is a heading candidate exactly when detection is on, its length is allowed, it does not end a sentence and it is at least 1.35 times the body height; 1.6 and 2 times give the higher levels |
| `LayoutLaws.HeadingsAre` | docreader/parser/pdf_parser.py:829-860 | measured by the middle line height, all candidates become headings of their level, unless they are more than one and more than two fifths of the lines, when none does; every text stays |
| `LayoutLaws.AttachedDirectly` | docreader/parser/pdf_parser.py:755-761 | attached punctuation follows its line directly, after a space only where the line ends in a hyphen |
| `LayoutLaws.OrphanIff` | docreader/parser/pdf_parser.py:749-755 | bare punctuation is one to four characters, each white space or one of eight marks |
| `Layout.KeptColumns` | docreader/parser/pdf_parser.py:727-736 | for non-empty input some column is kept, and only columns of the split are (which ones is `LayoutLaws.KeptExactly`) |
| `LayoutLaws.ArtifactIff` | docreader/parser/pdf_parser.py:702-724 | a column is an artifact exactly when it has no extent, or is a margin strip or a vertical stack: stated on its span, its vertical spread and its share of short lines |
| `LayoutLaws.KeptExactly` | docreader/parser/pdf_parser.py:727-736 | if some column is no artifact, the kept columns are exactly those, each once, in split order; otherwise exactly one is kept, the first of the largest span |
| `LayoutLaws.BodyColumnStays` | docreader/parser/pdf_parser.py:702-736 | a column at least the margin share of the page wide, with fewer than 35% short lines, is never dropped |
| `Layout.ColumnReadingPermutes` | docreader/parser/pdf_parser.py:799-823 | the reading order of a column holds exactly its glyphs |
| `LayoutLaws.ColumnReadsInLines` | docreader/parser/pdf_parser.py:799-823 | a column is read line by line: lines share out its glyphs, each runs left to right, its centres lie within the tolerance of its top, and the tops descend by more than it |
| `Layout.LayoutConserves` | docreader/parser/pdf_parser.py:863-870 | heading marks aside, the visible characters of the page text are those of the kept columns' glyphs, each once, in column, line and x order |
| `Layout.PlainLayoutConserves` | docreader/parser/pdf_parser.py:863-870 | without heading detection the visible text is exactly that sequence |
| `Layout.CharsToLayoutMarkdown` | docreader/parser/pdf_parser.py:863-870 | the page loop computes the specified text |
| `RunningLines.CountEdges` | docreader/parser/pdf_parser.py:1272-1279 | the counter holds, for every line, the number of text pages on which it is an edge |
| `RunningLines.StripRepeating` | docreader/parser/pdf_parser.py:1258-1293 | the page loop computes the specified pages |
| `RunningLines.ThresholdHalf` | docreader/parser/pdf_parser.py:1281-1281 | the threshold is at least half the text pages once there are four |
| `RunningLines.AtMostFourRunningLines` | docreader/parser/pdf_parser.py:1268-1282 | in a document of any length at most four distinct lines are running lines |
| `RunningLines.RemovalIsLimited` | docreader/parser/pdf_parser.py:1258-1293 | page count and scanned pages never change; a text page loses only lines of that set, each short, not blank and an edge of at least half the text pages, and keeps all others in order |
| `RunningLines.EdgesIff` | docreader/parser/pdf_parser.py:1274-1279 | a line is an edge of a page exactly when it has 1 to 80 characters and is the first or the last line that is not blank, stripped |
| `RunningLines.RepeatingIff` | docreader/parser/pdf_parser.py:1268-1282 | a line repeats if and only if there are at least four text pages and it is an edge of at least two of them and of the whole part of 60% of them |
| `RunningLines.SplitLinesPiece` | docreader/parser/pdf_parser.py:1274-1274 | every line break ends one line, "\r\n" as one, and a break at the end opens none |
| `RunningLines.FourLinesCanGo` | docreader/parser/pdf_parser.py:1268-1282 | the bound of four is reached |
| `RunningLines.ThresholdSixty` | docreader/parser/pdf_parser.py:1281-1281 | from four text pages on, the threshold is 60% of them exactly at multiples of five, and exactly half of them at 4, 6 and 8 |
| `RunningLines.SixtyPercentIff` | docreader/parser/pdf_parser.py:1261-1282 | every running line of a document is an edge of at least 60% of its text pages if and only if there are fewer than four of them, or a multiple of five, or no edge is counted exactly as often as the threshold |
| `RunningLines.SixtyPercentForAllIff` | docreader/parser/pdf_parser.py:1261-1282 | all documents with n text pages meet that rule if and only if n is below four or a multiple of five |
| `ChartDebris.DropChartRuns` | docreader/parser/pdf_parser.py:227-242 | the loop over runs computes the specified lines |
| `ChartDebris.DropsExactly` | docreader/parser/pdf_parser.py:227-242 | a line goes if and only if it belongs to a stretch of at least three debris or blank lines that starts with debris |
| `ChartDebris.ProseKept` | docreader/parser/pdf_parser.py:227-242 | every line that is neither debris nor blank is kept, in order |
| `ChartDebris.NoRunsLeft` | docreader/parser/pdf_parser.py:227-242 | no such stretch is left |
| `ChartDebris.DropsNothingIff` | docreader/parser/pdf_parser.py:227-242 | lines are left alone exactly when they hold no such stretch |
| `ChartDebris.ChartDebrisIdempotent` | docreader/parser/pdf_parser.py:223-242 | on whole texts, with any line ends, removing twice is removing once |
| `ChartDebris.StripLinesAbove` | docreader/parser/pdf_parser.py:262-273 | the loop with its pops computes the specified lines |
| `ChartDebris.AboveExactly` | docreader/parser/pdf_parser.py:262-273 | a line goes if and only if it and everything down to some caption below it is interior |
| `ChartDebris.ExteriorKept` | docreader/parser/pdf_parser.py:262-273 | every line that is not interior is kept, in order |
| `ChartDebris.CaptionsCleared` | docreader/parser/pdf_parser.py:262-273 | no interior line is left directly above a caption |
| `ChartDebris.AboveNothingIff` | docreader/parser/pdf_parser.py:262-273 | lines are left alone exactly when that holds already |
| `ChartDebris.CaptionsIdempotent` | docreader/parser/pdf_parser.py:262-273 | on whole texts removing twice is removing once |
| `ImageSelect.CountPages` | docreader/parser/pdf_parser.py:1148-1152 | for every content hash, the set of pages it occurs on |
| `ImageSelect.SelectEmbeddedImages` | docreader/parser/pdf_parser.py:1132-1173 | the loop returns the qualifying candidates in order, cut at the cap |
| `ImageSelect.FirstQualifying` | docreader/parser/pdf_parser.py:1157-1173 | only qualifying candidates are kept; below the cap none is missing, at the cap every missing one comes later than all kept |
| `ImageSelect.NoDuplicates` | docreader/parser/pdf_parser.py:1165-1168 | no page keeps the same content twice |
| `ImageSelect.KeptRarely` | docreader/parser/pdf_parser.py:1154-1168 | a picture is kept fewer times than the repeat threshold |
| `ImageSelect.SmallerCap` | docreader/parser/pdf_parser.py:1170-1173 | a smaller cap gives the beginning of a larger cap's selection |
| `ImageSelect.SelectedIff` | docreader/parser/pdf_parser.py:1148-1173 | a candidate is kept if and only if it is large enough in width, height and share of the page, is on fewer than two pages or fewer than the whole part of the given fraction of them, is the first such on its page with its content, and fewer than the cap (at least one) of these precede it |
| `MarkdownNormalizer.Normalize` | docreader/parser/mhtml_parser.py:227-266 | the fence-aware line machine computes the specified text, with fences as `OpeningFenceIff` and `ClosingFenceIff` have them |
| `MarkdownNormalizer.OpeningFenceIff` | docreader/parser/mhtml_parser.py:268-279 | exactly the lines of at most three spaces and then three or more backticks or tildes open a fence, with that mark and that many of it |
| `MarkdownNormalizer.ClosingFenceIff` | docreader/parser/mhtml_parser.py:281-289 | exactly the lines of at most three spaces, at least as many of the same mark, and nothing after them but spaces and tabs close it |
| `MarkdownNormalizer.NormalizeIdempotent` | docreader/parser/mhtml_parser.py:227-266 | normalising twice is normalising once, on every text |
| `MarkdownNormalizer.FencedBlockVerbatim` | docreader/parser/mhtml_parser.py:227-289 | every fenced block, its first line opening a fence of that shape and its last being the first to close it, appears verbatim and contiguously, whatever stands before and after it |
| `MarkdownNormalizer.BlankRunShrinks` | docreader/parser/mhtml_parser.py:245-264 | outside fences a run of lines of spaces and tabs between two others is written as one empty line, no such line as none, and the line after it as its content asks |
| `MarkdownNormalizer.TrimKeepsHardBreak` | docreader/parser/mhtml_parser.py:227-266 | exactly two trailing spaces stay where there were two or more, none otherwise; the rest of the line is untouched |
| `Text.UnixLinesJoin` | docreader/parser/mhtml_parser.py:228-228 | lines separated by "\n", "\r\n" or "\r" come out separated by "\n" |
| `MarkdownNormalizer.NormalizedLinesTidy` | docreader/parser/mhtml_parser.py:227-266 | in the result, an unfenced blank line is empty, neither first nor last, and not followed by another; other unfenced lines carry no stray trailing white space |
| `MarkdownNormalizer.ContentKept` | docreader/parser/mhtml_parser.py:227-266 | the output has the same content lines, in the same order |
| `MarkdownNormalizer.NormalizedIsClean` | docreader/parser/mhtml_parser.py:227-266 | joining, stripping and splitting the result again gives back exactly the cleaned lines |
| `MarkdownTables.PrintThenSplit` | docreader/parser/markdown_parser.py:63-75 | splitting a printed row gives back its cells, for every non-empty list of trimmed pipe-free cells |
| `MarkdownTables.SplitClean` | docreader/parser/markdown_parser.py:63-75 | split cells are always trimmed and pipe-free |
| `MarkdownTables.RowNormalForm` | docreader/parser/markdown_parser.py:154-160 | printing a row's cells is a normal form |
| `MarkdownTables.IndentedRow` | docreader/parser/markdown_parser.py:63-75 | indentation does not change the cells |
| `MarkdownTables.RowCells` | docreader/parser/markdown_parser.py:63-74 | the cells of a row closed by a pipe are the parts between its pipes, stripped |
| `MarkdownTables.TableRowIff` | docreader/parser/markdown_parser.py:76-79 | a line is a table row exactly when it has two pipes and nothing but white space before the first |
| `MarkdownTables.SeparatorCellIff` | docreader/parser/markdown_parser.py:29-29 | a delimiter cell is three dashes or more with at most one colon on either side |
| `MarkdownTables.SeparatorRowFacts` | docreader/parser/markdown_parser.py:81-95 | an inserted delimiter is a delimiter row with the header's cell count, is not empty, and is its own delimiter |
| `MarkdownTables.NormalizeTableBlock` | docreader/parser/markdown_parser.py:96-108 | the popping loops compute the specified rows |
| `MarkdownTables.BlockExactly` | docreader/parser/markdown_parser.py:96-108 | the empty rows in front go, then one delimiter row if one follows; of two or more rows left the second place gets a delimiter of as many `---` cells as the header, unless it has one; nothing else changes |
| `MarkdownTables.DelimiterSecond` | docreader/parser/markdown_parser.py:96-108 | a normalised block of two or more rows has a delimiter second |
| `MarkdownTables.ContentSurvives` | docreader/parser/markdown_parser.py:96-108 | all content rows survive in order |
| `MarkdownTables.BlockIdempotentIff` | docreader/parser/markdown_parser.py:96-108 | normalising twice is normalising once if and only if nothing survives, the first surviving row is a content row, or it is a canonical delimiter with the rows after it in the stated shapes |
| `MarkdownTables.NotAlwaysIdempotent` | docreader/parser/markdown_parser.py:96-108 | a two-row block on which the second pass removes a row |
| `MarkdownTables.DocumentIdempotentIff` | docreader/parser/markdown_parser.py:110-126 | normalising a whole document twice is normalising it once if and only if every maximal block of it is stable in that sense |
| `MarkdownTables.NormalizeSpuriousPrefixes` | docreader/parser/markdown_parser.py:110-126 | the document loop rewrites every maximal table block and nothing else |
| `MarkdownTables.TableByTable` | docreader/parser/markdown_parser.py:110-126 | lines before a table stay, the table up to its last row is normalised as one block, and the rest is treated in the same way |
| `MarkdownTables.DocumentKeepsContent` | docreader/parser/markdown_parser.py:110-126 | over a whole document nothing but delimiter and empty rows is added, lost or reordered |
| `ImagePaths.ImagePathForPart` | docreader/parser/mhtml_parser.py:156-180 | the suffix loop ends after at most one more try than there are stored images, and the path of a named part is unused |
| `ImagePaths.ChosenUnique` | docreader/parser/mhtml_parser.py:156-180 | that path is determined: the plain one if free, else the one with the smallest free suffix |
| `ImagePaths.PathShape` | docreader/parser/mhtml_parser.py:156-180 | a nameless part gets its generated path; a named one `images/` and its own name, or that with a number of at least two before the extension |
| `ImagePaths.DecimalReads` | docreader/parser/mhtml_parser.py:177-177 | the number in a path is written in digits, without leading zeros, and reads back |
| `ImagePaths.SplitName` | docreader/parser/mhtml_parser.py:167-169 | a dot with something other than dots before it and no dot after it begins the extension, and such a name is kept |
| `ImagePaths.PlainName` | docreader/parser/mhtml_parser.py:167-169 | a name without such a dot has no extension and gets that of the content type |
| `ImagePaths.StoreImages` | docreader/parser/mhtml_parser.py:51-73 | the loop over all parts of an archive is a walk: each image with data gets a path chosen in view of the map at its turn, and the map is what storing them in order gives |
| `ImagePaths.WalkKeepsAllIff` | docreader/parser/mhtml_parser.py:51-73 | a walk keeps every image part with data, each under a path of its own, if and only if no nameless part meets its generated path already in use; the map then has as many images as there are such parts |
| `ImagePaths.FreshWalkKeepsAll` | docreader/parser/mhtml_parser.py:51-73 | with fresh generated names every walk does |
| `ImagePaths.SharedIdOverwrites` | docreader/parser/mhtml_parser.py:164-165 | two nameless parts with one generated name: every walk over the archive ends with fewer images than parts |
| `DocxPages.BreakMapping` | docreader/parser/docx_parser.py:398-463 | the pass over page breaks builds the specified pages |
| `DocxPages.EstimateMapping` | docreader/parser/docx_parser.py:367-396 | the estimate for large documents puts 25 consecutive paragraphs on each page |
| `DocxPages.IdentifyPages` | docreader/parser/docx_parser.py:344-476 | the mapping of a document, by breaks or by estimate |
| `DocxPages.PagesSplitPrefix` | docreader/parser/docx_parser.py:344-476 | there is at least one page; pages laid end to end list the paragraphs 0 to k-1; paragraphs are left out only when the page limit was passed; no page is empty in a non-empty document |
| `DocxPages.ParagraphOnPage` | docreader/parser/docx_parser.py:345-463 | paragraph x is on page p exactly when p page ends precede it, or p is x / 25 in a document of more than 1000 paragraphs, and the page is within the limit; page 0 of the standard pass has no limit |
| `DocxPages.LimitKeepsPrefix` | docreader/parser/docx_parser.py:608-610 | the processed pages are consecutive: from the first page asked for up to the limit or the last page; a prefix with the default first page |
| `DocxWorkers.ExtractContent` | docreader/parser/docx_parser.py:1325-1422 | the paragraph loop builds the specified content sequence |
| `DocxWorkers.ContentComplete` | docreader/parser/docx_parser.py:1325-1422 | a page's content holds the text of its paragraphs and, in multimodal mode, their images, each once and in order |
| `DocxWorkers.RebuildInPlaceIff` | docreader/parser/docx_parser.py:1235-1268 | images stay in their places if and only if no text lies between an image that was not saved and a later one that was |
| `DocxWorkers.RebuildInPlace` | docreader/parser/docx_parser.py:1235-1268 | in particular they do when every save succeeds |
| `DocxWorkers.ImageCanMove` | docreader/parser/docx_parser.py:1235-1268 | an image, a text and an image of which the first is not saved: the second appears before the text |
| `DocxWorkers.BuildUrlMap` | docreader/parser/docx_parser.py:892-934 | the loop with its cache maps every existing, uploadable image to its Markdown, and nothing else |
| `DocxWorkers.FinalTextIs` | docreader/parser/docx_parser.py:892-969 | a page's text is its items in order, in paragraphs of their own: texts as they are, images as their links, and nothing for an image that could not be uploaded |
| `DocxWorkers.ProcessResults` | docreader/parser/docx_parser.py:862-975 | the collector computes the specified lines, sorted by page, stale page numbers included |
| `DocxWorkers.StaleOnlyEmpty` | docreader/parser/docx_parser.py:942-969 | a stale page number only reaches lines without text |
| `DocxWorkers.CompletionOrderIrrelevant` | docreader/parser/docx_parser.py:819-975 | for every completion order the non-empty texts are those of a page-by-page run in page order, and the document text is the same |
| `DocxWorkers.FanOutDeterministic` | docreader/parser/docx_parser.py:819-975 | the same for the whole fan-out, with failing workers |
| `DocxText.TextOfParagraphs` | docreader/parser/docx_parser.py:478-544 | end to end in text mode: for every order in which the page workers finish, the document shows exactly the characters of paragraphs 0 to k-1, in order, and paragraphs are left out only when there are more pages than asked for |
| `DocxText.PageVisible` | docreader/parser/docx_parser.py:1409-1422 | the text a worker returns shows exactly the characters of its page's paragraphs |
| `ChainParsers.Run` | docreader/parser/chain_parser.py:48-72 | both parser loops, over any nest of parsers, compute the specified result |
| `ChainParsers.FlattenPreserves` | docreader/parser/chain_parser.py:48-151 | flattening any nest of first-success and pipeline parsers changes no result: content, images, metadata, chunks or exception |
| `ChainParsers.FlattenIsFlat` | docreader/parser/chain_parser.py:48-151 | and leaves no first-success parser directly in another, nor a pipeline with stages in a pipeline |
| `ChainParsers.FirstIs` | docreader/parser/chain_parser.py:48-72 | a first-success parser returns the document of its first part that neither raises nor finds no content, whatever the others do, and an empty one if there is none |
| `ChainParsers.StagesRead` | docreader/parser/chain_parser.py:122-148 | every stage of a pipeline reads the encoded content of the stage before it, up to the first that raises |
| `ChainParsers.PipelineRaisesIff` | docreader/parser/chain_parser.py:122-148 | a pipeline raises if and only if one of its stages does |
| `ChainParsers.PipelineStage` | docreader/parser/chain_parser.py:122-151 | a non-empty pipeline used as a stage behaves as its own stages in its place |
| `ChainParsers.PipelineResult` | docreader/parser/chain_parser.py:122-151 | a pipeline returns the last stage's content and chunks with the images and metadata of all stages |
| `ChainParsers.LastWriterWins` | docreader/parser/chain_parser.py:136-148 | no key of any stage is lost, and the last stage that has it decides its value |
| `ChainParsers.LastMetadataWins` | docreader/parser/chain_parser.py:136-150 | the same for metadata |
| `Limiter.StepKeepsInv` | docreader/parser/concurrency.py:8-39 | every step of every thread, raising or not, keeps free permits plus holders equal to the bound, one lock holder, and known names |
| `Limiter.ReleaseFits` | docreader/parser/concurrency.py:36-39 | whenever a thread gives a permit back, there is room for it: the bounded semaphore never raises |
| `Limiter.Process.Move` | docreader/parser/concurrency.py:8-39 | the step relation, which `LimiterRuns` reads over runs, is what the dictionary's own operations do: creating under the lock, taking and giving back a permit, none of which fails |
| `LimiterRuns.ExceptionsPropagate` | docreader/parser/concurrency.py:36-39 | in every run, a thread that raises goes on raising until its innermost handler, gives back on the way exactly the permits it holds above it, starts none of its pending work, and then runs exactly that handler; without one it ends raising |
| `LimiterRuns.UnwindingMoves` | docreader/parser/concurrency.py:36-39 | on that way it waits for nothing |
| `LimiterRuns.FinishedDidProgram` | docreader/parser/concurrency.py:22-39 | in every run, a finished thread did its program as that reads without limiters, and ended raising exactly when the program did with the choices the thread met |
| `LimiterRuns.DoesOnce` | docreader/parser/concurrency.py:22-39 | those choices determine the outcome of a program |
| `LimiterRuns.FailedRenderFallsBack` | docreader/parser/pdf_parser.py:1405-1413 | a PDF whose render fails inside the limiter ends as the rendering of all its pages does |
| `LimiterRuns.PdfFailsLast` | docreader/parser/pdf_parser.py:1405-1413 | a PDF fails only when that rendering fails |
| `Limiter.Execute` | docreader/parser/concurrency.py:8-39 | whatever the programs and the schedule, the process goes through a run, keeps the invariant, and is never stuck when no thread enters a limiter while holding one |
| `Limiter.StepKeepsBounds` | docreader/parser/concurrency.py:12-18 | a limiter's bound is the first positive one asked for and never changes |
| `Limiter.BoundsForever` | docreader/parser/concurrency.py:8-39 | the same over every interleaving of any programs |
| `Limiter.NeverStuck` | docreader/parser/concurrency.py:22-39 | when no thread enters a limiter while holding one, some thread can always move until all are finished |
| `Limiter.FlatProgramsFinish` | docreader/parser/concurrency.py:22-39 | such programs always finish, with every permit back and the lock free, whatever raised |
| `Limiter.CallSitesFlat` | docreader/parser/opendataloader_parser.py:313-345 | every call site and fallback enters its limiter without holding one, for every configured size and every chaining |
| `Limiter.NestedCanDeadlock` | docreader/parser/concurrency.py:22-39 | without that a run exists in which a thread blocks for ever |
| `QaResume.Store.GenerateAnswers` | dataset/qa_dataset.py:219-282 | one run of the loop, cut short at any write, leaves the specified files (what an unexpected error does to them is `FailureStopsRun`) |
| `QaResume.WritesKeep` | dataset/qa_dataset.py:237-282 | after every prefix of a run's writes the files are consistent, saved pairs are kept, and at most one orphan answer was added |
| `QaResume.RunKeeps` | dataset/qa_dataset.py:219-282 | the same for one run |
| `QaResume.RunsKeep` | dataset/qa_dataset.py:219-282 | over any number of runs: ids are 1..n, pairs name existing answers, no two share a query or an answer, saved pairs never change, orphans never exceed the crashes |
| `QaResume.AnyHistoryIsSafe` | dataset/qa_dataset.py:219-282 | the same from an empty directory, and whatever was saved after any part of the history survives the rest |
| `QaResume.RunCompletes` | dataset/qa_dataset.py:219-282 | a run that is not cut short pairs exactly the queries that were not paired and could be answered, each with the model's reply |
| `QaResume.FailureStopsRun` | dataset/qa_dataset.py:237-279 | the first unpaired query that fails unexpectedly ends the run: the files, cut short or not, are those of the run over the queries before it |
| `QaResume.FailedRunCompletes` | dataset/qa_dataset.py:237-279 | such a run, when it does not die, has paired exactly the queries paired before and the answerable ones before that query, each with the model's reply |
| `QaResume.AskDecided` | dataset/qa_dataset.py:241-279 | the first reply that is no service error decides a query, when it comes within the attempts allowed: an answer is taken, any other error is raised |
| `QaResume.AskExhausted` | dataset/qa_dataset.py:241-279 | with service errors alone the query is given up; with no attempt allowed it is not asked |
| `QaResume.DeathsSnoc` | dataset/qa_dataset.py:219-282 | deaths are counted run by run |
| `QaResume.AnswersSurviveIff` | dataset/qa_dataset.py:219-282 | from consistent files, no run loses a saved answer, paired or not, if and only if there is no answer or some pair is saved |
| `QaResume.PairedKeepsAnswers` | dataset/qa_dataset.py:219-282 | once a pair is saved every run keeps all saved answers in place |
| `QaResume.AnswerCanBeErased` | dataset/qa_dataset.py:219-282 | a run that dies between its first two writes and a run that gives up: the saved answer is gone |
| `XlsxRepair.RepairXlsxBytes` | docreader/parser/xlsx_repair.py:21-45 | the dispatch with its loops computes the specified repair |
| `XlsxRepair.ReadFiles` | docreader/parser/xlsx_repair.py:112-120 | reading the members one by one builds the dictionary |
| `XlsxRepair.LastMemberWins` | docreader/parser/xlsx_repair.py:116-119 | under a normalised name the dictionary holds the part of the last member with that name |
| `XlsxRepair.RenamedPackage` | docreader/parser/xlsx_repair.py:80-85 | renaming moves the part to the canonical name and changes nothing else |
| `XlsxRepair.StrippedPackage` | docreader/parser/xlsx_repair.py:88-103 | stripping keeps names and sheets, and a reference remains exactly when a mention was outside the stripped elements |
| `XlsxTexts.MissingPartRepair` | docreader/parser/xlsx_repair.py:21-109 | a package with normal names and no shared-strings part is left alone if and only if neither manifest, each under its own path, mentions one or some sheet refers to them; otherwise, with manifests in proper UTF-8, both lose their elements and no other part changes |
| `XlsxTexts.StrippedElements` | docreader/parser/xlsx_repair.py:11-18 | stripping removes exactly the self-closing elements of either kind with an attribute that names the shared strings, letters compared without case |
| `XlsxTexts.ManifestMentionsIff` | docreader/parser/xlsx_repair.py:59-73 | a manifest mentions the shared strings exactly when a string in it has the word, in capitals or not |
| `XlsxTexts.SharedCellIff` | docreader/parser/xlsx_repair.py:76-85 | a sheet refers to them exactly where `t="s"` stands at a word boundary |
| `XlsxTexts.SharedStringsNameIff` | docreader/parser/xlsx_repair.py:52-56 | a part counts by the end of its name, in capitals or not |
| `XlsxTexts.MovedTo` | docreader/parser/xlsx_repair.py:30-36 | a package is kept when the part found is at `xl/sharedStrings.xml`, and otherwise the part moves there |
| `XlsxRepair.RepairLowers` | docreader/parser/xlsx_repair.py:21-45 | every repair of a package that is not stuck lowers a bound on the repairs left |
| `XlsxRepair.RepairStopsIff` | docreader/parser/xlsx_repair.py:21-45 | repeated repair comes to rest if and only if the package is not stuck: no part, a readable reference, readable sheets without shared cells, a manifest in proper UTF-8, and a mention outside the self-closing elements |
| `XlsxRepair.StuckTidyIff` | docreader/parser/xlsx_repair.py:21-45 | on a package with normal names, each once, and a decodable manifest, stuck means no part, no shared cells and such a mention |
| `XlsxRepair.OneRepairIsEnough` | docreader/parser/xlsx_repair.py:21-45 | with one shared-strings part, or every mention in a stripped element, a repaired package is never repaired again |
| `XlsxRepair.RepairNeedNotStop` | docreader/parser/xlsx_repair.py:10-18 | a one-part package that is repaired for ever |
| `ExcelOpen.NormalizeExcelBytes` | docreader/parser/excel_convert.py:108-130 | the suffix loop with its `seen` set computes the specified bytes |
| `ExcelOpen.NormalizedFacts` | docreader/parser/excel_convert.py:108-130 | recognised bytes pass unchanged; others become a recognised conversion, and the call fails exactly when no suffix gives one |
| `ExcelOpen.EmptyFiles` | docreader/parser/excel_convert.py:19-39 | an empty file has no format and is no result of a conversion |
| `ExcelOpen.SuffixesAre` | docreader/parser/excel_convert.py:114-117 | the file's own suffix, whatever dots it came with, is tried before `.xlsx`, `.xls`, `.et` and `.csv` |
| `ExcelOpen.UnrecognisedIsConverted` | docreader/parser/excel_parser.py:155-169 | bytes of no known format are read as their first usable conversion, and given up when there is none |
| `ExcelOpen.ReadableOpens` | docreader/parser/excel_parser.py:171-186 | prepared bytes that the engine of their format opens are the book; a missing engine or another failure ends the loop |
| `ExcelOpen.UndeterminedIsConverted` | docreader/parser/excel_parser.py:196-204 | bytes whose format the engine cannot tell are converted from the original content, once |
| `ExcelOpen.MissingPartIsRepaired` | docreader/parser/excel_parser.py:187-195 | a package in which the engine misses the shared strings is repaired, prepared and read again |
| `ExcelOpen.TurnLowers` | docreader/parser/excel_parser.py:150-204 | every turn that goes on lowers a rank below eight: the conversion flag, then the ods case, then the need for a repair |
| `ExcelOpen.LoopEnds` | docreader/parser/excel_parser.py:150-204 | on every file and from every state the loop ends within eight turns, given conversions that are no ods files, merge filling that makes no package repairable, one loader behind filling and engine, and a repair that makes no ods file |
| `ExcelOpen.BooksOpenWell` | docreader/parser/excel_parser.py:175-183 | a returned book was opened by the engine of its detected format, a package only after repair and merge filling, an ods file only when conversion failed |
| `ExcelOpen.PreparedBytes` | docreader/parser/excel_parser.py:143-147 | a package that was repaired and filled never sends the loop back to repair it |
| `ExcelOpen.OpenExcelFile` | docreader/parser/excel_parser.py:150-204 | the `while True` loop returns on every content, with the outcome of its first eight turns |
| `MergeFill.Worksheet.FillMerged` | docreader/parser/xlsx_merge.py:28-33 | one range: remembered value, unmerge, nested fill |
| `MergeFill.Worksheet.FillMergedCells` | docreader/parser/xlsx_merge.py:24-34 | in whatever order the set is visited: with disjoint ranges every covered cell gets its range's original top-left value and all others are untouched; no range is left |
| `MergeFill.OrderIrrelevant` | docreader/parser/xlsx_merge.py:27-33 | with disjoint ranges the visiting order does not matter |
| `MergeFill.FillTwice` | docreader/parser/xlsx_merge.py:24-34 | filling the same ranges again changes nothing |
| `MergeFill.OverlapDependsOnOrder` | docreader/parser/xlsx_merge.py:27-33 | why the ranges must be disjoint: on two overlapping ones the order matters |
| `SheetChunks.ParseRows` | docreader/parser/excel_parser.py:66-109 | chunk offsets cut the text into consecutive numbered pieces, and each piece is the text of one row that shows anything |
| `SheetChunks.ChunksRebuild` | docreader/parser/excel_parser.py:98-109 | joining the chunks gives the document back |
| `SheetChunks.RowsReadBack` | docreader/parser/excel_parser.py:66-109 | the chunks are the rows that show a cell, one line each, in order; where no cell holds a comma, splitting a line at commas gives back the shown cells as column, colon and value |
| `EventStreams.KnowledgeQaStream` | client/session.go:292-334 | the scanner loop delivers the specified messages and error |
| `EventStreams.ContinueStream` | client/session.go:369-402 | the same for the reader with the type filter |
| `EventStreams.ProcessAgentSseStream` | client/agent.go:104-138 | the same for the reader that trims |
| `EventStreams.StreamDelivers` | client/session.go:292-334 | on every stream of closed events with one type and one data line, a reader hands out exactly the wanted payloads in order, up to the first that fails |
| `EventStreams.FieldLines` | client/session.go:324-334 | a field line begins with the name and a colon, and its value is the rest, blanks included unless the agent reader trims it |
| `EventStreams.AllPayloadsArrive` | client/session.go:369-402 | with valid payloads and a willing callback all of them arrive; `ContinueStream` delivers exactly those typed `message` |
| `EventStreams.StreamStops` | client/session.go:292-334 | the first payload that does not decode ends the reading after the earlier ones were handed out; the first that the callback refuses ends it after it was |
| `EventStreams.BrokenIsReported` | client/session.go:292-334 | a stream that breaks off is reported, unless the reader had stopped before |
| `EventStreams.UnterminatedDiscarded` | client/agent.go:104-138 | on any stream, lines after the last empty line are never delivered |
| `EventStreams.PrefixOfCallbacks` | client/session.go:292-334 | on any stream, stopping after any line has delivered a prefix of the callbacks |
| `EventStreams.SpacedTypesIgnored` | client/session.go:369-402 | on all streams whose every type is written after a space nothing is ever dispatched |
| `EventStreams.StaleDataDelivered` | client/session.go:369-402 | one stream on which data of an event that was not dispatched is delivered with a later one |
| `EventStandard.InterpretStream` | client/session.go:292-334 | the machine of section 9.2.6 of the WHATWG HTML Standard, run over closed blocks, dispatches what each block gives: its values joined, typed by its last event field |
| `EventStandard.FieldsByName` | client/session.go:324-334 | the fields the standard knows are told by what stands before the first colon; one space before the value is dropped |
| `EventStandard.TraceDelivered` | client/session.go:292-334 | on closed blocks of any lines, each Go reader hands out exactly what it dispatches at the blank lines, until a payload fails |
| `EventStandard.ReaderAgreesIff` | client/agent.go:104-138 | on blocks of any lines, `KnowledgeQAStream` and the agent reader dispatch at every blank line what the standard does if and only if each block has no data field, or one with a clean value |
| `EventStandard.ContinueAgreesIff` | client/session.go:369-402 | on blocks of any lines, `ContinueStream` does if and only if wherever the standard dispatches a `message` the block has one clean data field and the last type since the last dispatch is written `event:message`, and elsewhere that type is another or no data has come |
| `EventStandard.AgreeingReader` | client/session.go:369-402 | a reader that agrees delivers the events of the standard's machine |
| `EventStandard.ContinueDiffers` | client/session.go:369-402 | no type, a spaced type and two data lines: three streams on which it does not |
| `EventStandard.StaleDataDiffers` | client/session.go:369-402 | left-over data: another |
| `EventStandard.StaleTypeAgrees` | client/session.go:369-402 | a left-over type stands in for the standard's default type |
| `EventStandard.PyMessagesAre` | mcp-server/xinwiki_mcp_server.py:352-381 | the Python reader decodes the payload of every data line, whatever block it is in |
| `EventStandard.PyAgreesIff` | mcp-server/xinwiki_mcp_server.py:352-381 | on a block of any lines it sees the standard's data if and only if there is no data field, or one written with a colon and at most one space |
| `EventStreams.ConsumeSseStream` | mcp-server/xinwiki_mcp_server.py:352-381 | the line loop returns the joined answer chunks and last references of the messages up to the first `complete`, or the first server error |
| `EventStreams.SummaryIs` | mcp-server/xinwiki_mcp_server.py:352-381 | reading stops at the first `complete` or `error` message: an error is raised with its content, otherwise what came up to there is summed up |
| `EventStreams.AnswerTextIs` | mcp-server/xinwiki_mcp_server.py:365-381 | the answer is the contents of the answer messages, in order |
| `EventStreams.LastReferencesAre` | mcp-server/xinwiki_mcp_server.py:369-381 | the references are those of the last message that carries them |
| `EventStreams.ReadersAgree` | mcp-server/xinwiki_mcp_server.py:352-381 | on a well-formed stream of valid payloads the two unfiltered Go readers deliver the same messages, and the Python reader sees those up to the one that ends its reading |

## Left out

- Limiter.Process.Move: waiting is not part of the method; a thread that finds no permit is not enabled in the step relation.
- Columns.AtMostTwentySixColumns: for glyphs that the page filter lets through; with the filter switched off the number is not bounded.
- ExcelOpen.OpenExcelFile: relies on four facts about foreign calls (`WellBehaved`); no file is excluded.
- XlsxRepair.RepairXlsxBytes: parts are read as tags and texts, so a mention split over two of them is not one, and corrupt zip data is not modelled; the order in which the set of names is visited is a parameter.
- MergeFill.Worksheet.FillMergedCells: what the library does with overlapping ranges, which the file format forbids, is not modelled; the loop over worksheets is not either.
- EventStreams.ReadersAgree: decoding must not depend on blanks around the payload; splitting bytes into lines and the scanner's line-length limit are the list of lines and the `broken` flag.
- DocxWorkers.FanOutDeterministic: an upload is a function of the file's path; only texts that are not empty have a promised place, since an empty line may carry a stale page number.
- QaResume.Store.GenerateAnswers: each file write is atomic and query ids are distinct.
- ImagePaths.StoreImages: unquoting and sanitising the file name happen before the model starts.
- DocxText.TextOfParagraphs: for workers that do not fail, and text mode; tables and the fallback for an empty text are not modelled.
- EventStandard.ReaderAgreesIff: the byte-order mark, comments, `id` and `retry` change nothing here and are not modelled.
- LineWords.LineReadsInWords: a glyph is white space or ink, as a single character is.
- `process_align` in the table formatter: column alignment of formatted tables is not modelled.
- Floating-point rounding, and the median of floats: real arithmetic.
- Regular expressions for chart labels, captions, fences inside them and arXiv lines: arbitrary predicates on lines. Unicode case mapping is ASCII.
- Figure bounding boxes, the choice between plain and layout text, vector figures, rendering: tuned heuristics.
- Caption injection, HTML conversion of DOCX tables and its spans: the code has no law there.
- HTTP calls, retries around them, sheets and spreadsheet engines, LibreOffice, MIME decoding, HTML to Markdown conversion: foreign or plumbing.
- Image aliases of MHTML parts: a dictionary filled without conditions.
- Removing arXiv and page-number lines: a plain filter.
