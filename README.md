# Shortcut toolbox — verified model of its logic

The application is a React toolbox. It offers:

- command and shortcut catalogs with category/tool filters and search;
- transaction cards that assemble command lines;
- a dummy file generator;
- an image format converter;
- a plain-text editor;
- OS detection;
- a text diff page.

This project models the logic of those components in Dafny and proves what
each promises. React state, the DOM and browser APIs are not modelled.

The largest part is the **text diff page**
(`src/components/TextDiff.tsx`), in four pieces:

- **Normalisation.** With the whitespace option, spaces and tabs are
  removed. With the case option, the text is then lower-cased.
- **The diff.** The `diff-match-patch` call is not modelled; its result is
  a parameter. It is an arbitrary list of `(op, text)` chunks, and the only
  thing assumed about it is `IsDiffOf`: the equal and delete chunks
  concatenate to the first normalised text, and the equal and insert chunks
  to the second. The diff runs character-wise over the whole normalised
  texts, so one source line can be spread over several chunks, and every
  displayed row shows normalised text.
- **The two views.** The unified and split views are `forEach` loops that
  push rows and bump counters. They are modelled as methods with loops
  (`UnifiedDiffLines`, `SplitDiffLines`). Each is proved equal to a
  recursive projection (`UnifiedView`, `SplitView`) of the flat row list
  `Rows`, which has one row per kept `'\n'` segment of each chunk.
  Numbering, the correspondence between the views and the origin of each
  row's characters are proved about those projections.
- **Statistics and scrolling.** The statistics loop is the method `Stats`.
  The scroll synchronisation is a small class (`ScrollSync`) whose
  `HandleScroll` writes the other pane's offset under a one-flag guard.

The other components are pure functions:

- the catalog filters `filteredCommands` and `filteredShortcuts`;
- the selection toggles;
- `buildCommand`;
- the size arithmetic, validation and file plan of the dummy file
  generator;
- the conversion route, encoding settings and download name of the image
  converter;
- the `.txt` naming of the text editor;
- the two `detectOS` functions.

Shared pieces sit in their own modules:

- `Strings` holds ASCII lower-casing, JavaScript `trim`, `split` and `join`,
  and substring tests.
- `Lists` holds `find`, `filter` and "filter out one value".
- `Catalog` holds the record types of the data files.

## Model

| member | source | states |
|---|---|---|
| TextDiff.StripSpaces | src/components/TextDiff.tsx:40-41 | the result is the input without its spaces and tabs: a subsequence with no space or tab, every other character kept as often as before, length reduced by exactly the spaces and tabs |
| TextDiff.StripSpacesKeepsClean | src/components/TextDiff.tsx:40-41 | a text without spaces or tabs is left unchanged |
| TextDiff.Normalize | src/components/TextDiff.tsx:35-48 | without case folding the result is the text with every space and tab removed when whitespace is ignored, and the text itself otherwise; with case folding it is the lower-cased form of that; whitespace removal leaves no space or tab and shortens by their count; case folding leaves no upper-case letter; the number of newlines never changes |
| TextDiff.NormalizeIdempotent | src/components/TextDiff.tsx:38-48 | normalising an already normalised text changes nothing, for every flag combination |
| TextDiff.Segments | src/components/TextDiff.tsx:62-66 | a chunk yields one row per newline, plus one when it is non-empty and does not end in a newline |
| TextDiff.SegmentParts | src/components/TextDiff.tsx:62-66 | no row content holds a newline, and every character of a row comes from its chunk |
| TextDiff.SegmentInText | src/components/TextDiff.tsx:62-66 | every row content is a contiguous piece of its chunk's text |
| TextDiff.SegmentsRebuildText | src/components/TextDiff.tsx:62-66 | joining a chunk's rows with newlines, plus the final newline if there was one, gives back the chunk text |
| TextDiff.SegmentAt | src/components/TextDiff.tsx:62-66 | the piece at index `index` of `text.split('\n')` is a row, unless it is the empty last piece, which is skipped |
| TextDiff.SegmentsFewer | src/components/TextDiff.tsx:62-66 | a chunk never yields more rows than `split` gives pieces |
| TextDiff.UnifiedOf | src/components/TextDiff.tsx:57-84 | the unified view has one line per row |
| TextDiff.RowsSnoc | src/components/TextDiff.tsx:61 | the rows of the first k+1 chunks are those of the first k followed by those of chunk k |
| TextDiff.RowsOfSnoc | src/components/TextDiff.tsx:64-66 | the rows of the first j+1 segments are those of the first j followed by one more |
| TextDiff.UnifiedSnoc | src/components/TextDiff.tsx:75-79 | appending a row appends one line numbered by the running counter; the counter grows except on a delete |
| TextDiff.UnifiedStep | src/components/TextDiff.tsx:64-79 | one pass of the inner loop extends the unified view by the next segment's line and keeps the counter in step |
| TextDiff.PushUnifiedLine | src/components/TextDiff.tsx:68-79 | pushes the line of the chunk's kind and content, numbered `lineNumber` unless it is a delete, and bumps the counter unless it is a delete |
| TextDiff.PushUnifiedChunk | src/components/TextDiff.tsx:61-80 | the inner loop extends the view of the earlier rows by the chunk's rows and leaves the counter at one more than the numbered rows |
| TextDiff.UnifiedDiffLines | src/components/TextDiff.tsx:57-84 | the loop builds exactly the unified projection of the chunk list |
| TextDiff.SplitOf | src/components/TextDiff.tsx:87-119 | the split view has one row pair per row |
| TextDiff.SplitSnoc | src/components/TextDiff.tsx:99-114 | appending a row appends one pair numbered by the two counters; the left counter grows except on an insert, the right one except on a delete |
| TextDiff.SplitStep | src/components/TextDiff.tsx:95-114 | one pass of the inner loop extends the split view by the next segment's pair and keeps both counters in step |
| TextDiff.PushSplitLine | src/components/TextDiff.tsx:99-114 | pushes the pair of the chunk's kind (equal both sides, delete left with empty right, empty left with insert right) and bumps the counters of the filled sides |
| TextDiff.PushSplitChunk | src/components/TextDiff.tsx:92-115 | the inner loop extends the split view of the earlier rows by the chunk's rows, with both counters one more than their numbered rows |
| TextDiff.SplitDiffLines | src/components/TextDiff.tsx:87-119 | the loop builds exactly the split projection of the chunk list |
| TextDiff.Stats | src/components/TextDiff.tsx:144-158 | the loop returns the additions and deletions totals of the chunk list |
| TextDiffProperties.UnifiedAt | src/components/TextDiff.tsx:57-84 | line i of the unified view is row i, numbered one more than the non-delete rows before it |
| TextDiffProperties.SplitAt | src/components/TextDiff.tsx:87-119 | pair i of the split view is row i, numbered one more than the left and right rows before it |
| TextDiffProperties.NumbersSnoc | src/components/TextDiff.tsx:78 | appending a line adds its number to the sequence of numbers shown, if it has one |
| TextDiffProperties.ConsecutiveSnoc | src/components/TextDiff.tsx:59 | the numbers 1..n+1 are 1..n followed by n+1 |
| TextDiffProperties.UnifiedNumbers | src/components/TextDiff.tsx:59-79 | the numbers shown in the unified view are exactly 1, 2, … up to the count of equal and insert rows |
| TextDiffProperties.SplitNumbers | src/components/TextDiff.tsx:89-112 | the left numbers are exactly 1..L (equal and delete rows) and the right numbers exactly 1..R (equal and insert rows) |
| TextDiffProperties.UnifiedNumbering | src/components/TextDiff.tsx:57-84 | per row: kind from the chunk op, content from the segment, no number exactly on deletes, never an empty line; numbers consecutive from 1 |
| TextDiffProperties.SplitNumbering | src/components/TextDiff.tsx:87-119 | per row: a left number and a non-empty left side exactly when the row is not an insert, a right number and non-empty right side exactly when it is not a delete; each column numbered consecutively from 1 |
| TextDiffProperties.SplitMatchesUnified | src/components/TextDiff.tsx:99-114 | the views have equal length and row i has matching kinds: delete left with empty right, insert right with empty left, equal on both sides with the same content; no pair is empty on both sides |
| TextDiffProperties.RowOrigin | src/components/TextDiff.tsx:61-66 | every row comes from a segment of some chunk with the same op |
| TextDiffProperties.ChunkInOldText | src/components/TextDiff.tsx:50 | the characters of an equal or delete chunk occur in the first processed text |
| TextDiffProperties.ChunkInNewText | src/components/TextDiff.tsx:50 | the characters of an equal or insert chunk occur in the second processed text |
| TextDiffProperties.ChunkWithinOldText | src/components/TextDiff.tsx:50 | the text of an equal or delete chunk occurs, whole, in the first processed text |
| TextDiffProperties.ChunkWithinNewText | src/components/TextDiff.tsx:50 | the text of an equal or insert chunk occurs, whole, in the second processed text |
| TextDiffProperties.RowCharsFromSides | src/components/TextDiff.tsx:50-66 | a row holds no newline and is a contiguous piece of the processed text of its side (the first text for equal and deleted rows, the second for equal and inserted rows), so each of its characters comes from that text |
| TextDiffProperties.CleanChars | src/components/TextDiff.tsx:38-48 | characters taken from a normalised text carry its normalisation |
| TextDiffProperties.SidesAreNormalised | src/components/TextDiff.tsx:35-51 | when the chunks are a diff of the normalised texts, both sides have no space or tab under the whitespace option and no upper-case letter under the case option |
| TextDiffProperties.RowIsNormalised | src/components/TextDiff.tsx:61-66 | a row of such chunks has no newline and carries the normalisation of its side |
| TextDiffProperties.UnifiedContent | src/components/TextDiff.tsx:75-77 | unified line i shows the content of row i |
| TextDiffProperties.RowShowsProcessedText | src/components/TextDiff.tsx:50-77 | the content of unified line i is row i, with no newline, no space or tab under the whitespace option and no upper-case letter under the case option |
| TextDiffProperties.RowsShowProcessedText | src/components/TextDiff.tsx:50-84 | every unified line shows normalised text: no newline, no space or tab under the whitespace option, no upper-case letter under the case option |
| TextDiffProperties.StatsCountChunks | src/components/TextDiff.tsx:148-155 | additions are at least the number of insert chunks and zero exactly when there are none; likewise deletions and delete chunks |
| TextDiffProperties.RowOpCountAppend | src/components/TextDiff.tsx:61 | counting rows of one op distributes over concatenation |
| TextDiffProperties.RowOpCountOf | src/components/TextDiff.tsx:64-66 | a chunk's rows all carry the chunk's op |
| TextDiffProperties.ChangedLinesVersusSegments | src/components/TextDiff.tsx:149 | a non-empty chunk counted as n lines shows n or n+1 rows |
| TextDiffProperties.StatsVersusRows | src/components/TextDiff.tsx:144-158 | with non-empty chunks, additions never exceed the insert rows shown and fall short by at most one per insert chunk; likewise deletions |
| TextDiffProperties.OneLineChunk | src/components/TextDiff.tsx:62-66 | a line with or without its newline is one row, and counts 0 or 1 newline |
| TextDiffProperties.OneLineChunkRows | src/components/TextDiff.tsx:62-66 | a chunk holding one terminated line yields exactly that row |
| TextDiffProperties.ThreeLineRows | src/components/TextDiff.tsx:61-66 | equal, delete and insert chunks of one line each yield three rows in order |
| TextDiffProperties.TwoLineRows | src/components/TextDiff.tsx:61-66 | an equal and a delete chunk of one line each yield their two rows in order |
| TextDiffProperties.RowsAppendChunk | src/components/TextDiff.tsx:61 | appending a chunk appends its rows |
| TextDiffProperties.ThreeLineExample | src/components/TextDiff.tsx:57-119 | for those chunks the unified view is `a` #1, `b` unnumbered, `c` #2, and the split view shows the deleted line on the left as #2 with an empty right side |
| TextDiffProperties.ThreeLineStats | src/components/TextDiff.tsx:148-155 | those chunks give one addition and one deletion |
| TextDiffProperties.TwoLineChunkRows | src/components/TextDiff.tsx:62-66 | `a\nb` yields two rows and holds one newline |
| TextDiffProperties.UncountedLastLineExample | src/components/TextDiff.tsx:148-155 | an insert of `a\nb` counts one addition yet shows two numbered insert lines |
| TextDiffProperties.SingleChunkRows | src/components/TextDiff.tsx:61 | the rows of a one-chunk diff are that chunk's rows |
| TextDiffProperties.TwoInsertLines | src/components/TextDiff.tsx:68-79 | two insert rows are numbered 1 and 2 |
| TextDiffScroll.ScrollSync.Target | src/components/TextDiff.tsx:168 | the target of a left event is the right pane and of a right event the left pane |
| TextDiffScroll.ScrollSync.HandleScroll | src/components/TextDiff.tsx:161-174 | with the flag set, only the flag is cleared and no pane changes; with it clear and a target present, the target takes the source offset and the flag is set; with no target nothing changes |
| TextDiffScroll.ScrollSync.ScrollWithEcho | src/components/TextDiff.tsx:161-174 | a user scroll followed by the echo event it causes leaves both panes at the user's offset and the flag clear |
| DummyFileCreator.ExtensionName | src/components/DummyFileCreator.tsx:6-10 | every extension name has three or four characters and no dot |
| DummyFileCreator.Multiplier | src/components/DummyFileCreator.tsx:27-32 | every multiplier is at least one |
| DummyFileCreator.MultiplierSteps | src/components/DummyFileCreator.tsx:27-32 | B is 1 and each unit is 1024 times the one below |
| DummyFileCreator.CalculateBytes | src/components/DummyFileCreator.tsx:26-34 | the result is the floor of size times multiplier |
| DummyFileCreator.CalculateBytesWhole | src/components/DummyFileCreator.tsx:33 | a whole size gives exactly size times multiplier |
| DummyFileCreator.CalculateBytesMonotone | src/components/DummyFileCreator.tsx:33 | bytes are monotone in the size and non-negative for a non-negative size |
| DummyFileCreator.FullFilename | src/components/DummyFileCreator.tsx:44 | the name is exactly the filename, then the suffix, then a dot and the extension: it starts with the first two, ends with the last two, and is as long as all four together |
| DummyFileCreator.HandleDownload | src/components/DummyFileCreator.tsx:52-83 | a blank filename is rejected, and only it gets that rejection; otherwise an invalid size is rejected; an accepted request plans the unsuffixed file of `calculateBytes` bytes, and normal mode plans only that file |
| DummyFileCreator.BoundaryPlan | src/components/DummyFileCreator.tsx:67-75 | boundary mode plans three files in ascending one-byte steps when bytes is at least 2, otherwise two; the last two are the unsuffixed and `_plus1` files and the first is `_minus1` at bytes-1; only the unsuffixed file can be empty |
| DummyFileCreator.DisplayBytes | src/components/DummyFileCreator.tsx:85-89 | an invalid size shows 0; a valid size shows the byte count the download uses; the count is never negative |
| DummyFileCreator.DisplayMatchesDownload | src/components/DummyFileCreator.tsx:85-89 | the count shown is the size of the unsuffixed file an accepted download plans |
| Search.QueryMatchesLowered | src/components/CommandsList.tsx:24-26 | lower-casing the query does not change the match, and the query is empty exactly when its lower-cased form is |
| Lists.Filter | src/components/CommandsList.tsx:17 | the result is no longer than the input, holds only input elements satisfying the test, and holds every such element |
| Lists.FilterSubsequence | src/components/CommandsList.tsx:17 | the result is a subsequence of the input |
| Lists.FilterCounts | src/components/CommandsList.tsx:17 | every occurrence of a value passing the test is kept and every occurrence of a failing one is dropped |
| Lists.FilterAppend | src/components/CommandsList.tsx:17 | filtering distributes over concatenation |
| CommandsList.FilteredCommands | src/components/CommandsList.tsx:15-32 | the result keeps the order of the commands and adds nothing; it holds only commands passing the category and query tests, and every occurrence of each such command |
| CommandsList.NoFilterListsAll | src/components/CommandsList.tsx:18-30 | no category selected and no query list every command, in order |
| CommandsList.SelectionAndQuery | src/components/CommandsList.tsx:18-28 | with a selection every listed category is selected; with a query a command passing the category test is listed exactly when its lower-cased name or description contains the lower-cased query |
| CommandsList.CaseInsensitive | src/components/CommandsList.tsx:24-26 | a query and its lower-cased form list the same commands |
| ShortcutsList.FilteredShortcuts | src/components/ShortcutsList.tsx:16-33 | the result keeps the order of the shortcuts and adds nothing; it holds only shortcuts passing the tool and query tests, and every occurrence of each such shortcut |
| ShortcutsList.NoFilterListsAll | src/components/ShortcutsList.tsx:19-31 | no tool selected and no query list every shortcut, in order |
| ShortcutsList.SelectionAndQuery | src/components/ShortcutsList.tsx:19-29 | with a selection every listed tool is selected; with a query a shortcut passing the tool test is listed exactly when its lower-cased name or description contains the lower-cased query |
| ShortcutsList.CaseInsensitive | src/components/ShortcutsList.tsx:25-27 | a query and its lower-cased form list the same shortcuts |
| ShortcutsList.MoreToolsListMore | src/components/ShortcutsList.tsx:19 | for non-empty selections, a larger one lists a supersequence of what a smaller one lists, never fewer shortcuts |
| Lists.FilterWeaker | src/components/ShortcutsList.tsx:17-21 | a weaker test keeps a supersequence of what a stronger one keeps |
| Lists.Remove | src/components/CategoryFilter.tsx:12 | the value no longer occurs, and every other element of the input remains |
| Lists.RemoveAbsent | src/components/CategoryFilter.tsx:12 | removing a value that does not occur changes nothing |
| Lists.RemoveAppend | src/components/CategoryFilter.tsx:12 | removal distributes over concatenation |
| Lists.RemoveNoDuplicates | src/components/CategoryFilter.tsx:12 | removal keeps a list free of repeats |
| Selection.Toggle | src/components/CategoryFilter.tsx:10-16 | toggling flips membership of the value; an absent value is appended at the end, growing the list by one; a present one shortens it |
| Selection.RemoveShorter | src/components/CategoryFilter.tsx:12 | removing a value that occurs shortens the list |
| Selection.ToggleKeepsOthers | src/components/CategoryFilter.tsx:10-16 | apart from the toggled value the list is the same, in the same order |
| Selection.ToggleTwice | src/components/CategoryFilter.tsx:12-14 | toggling an absent value twice gives back the original list |
| Selection.ToggleNoDuplicates | src/components/CategoryFilter.tsx:10-16 | a list without repeats stays without repeats |
| Selection.ClearAll | src/components/CategoryFilter.tsx:18-20 | clearing yields the empty selection (the same function serves `ToolFilter.tsx:18-20`) |
| CategoryFilter.ToggleCategory | src/components/CategoryFilter.tsx:10-16 | the category's membership flips, an added one goes at the end, and with the category taken out the selection is unchanged in content and order |
| ToolFilter.ToggleTool | src/components/ToolFilter.tsx:10-16 | the tool's membership flips, an added one goes at the end, and with the tool taken out the selection is unchanged in content and order |
| ToolFilter.ToggleToolTwice | src/components/ToolFilter.tsx:12-14 | a selection without repeats keeps none, and toggling an absent tool twice restores it |
| Lists.FindIndex | src/components/TransactionCard.tsx:21 | no index exactly when nothing matches; otherwise the first matching index |
| Lists.Find | src/components/TransactionCard.tsx:21 | no element exactly when nothing matches; otherwise the element at the first match |
| Lists.FindFirstMatch | src/components/TransactionCard.tsx:21 | the element found is the one at the first matching position |
| TransactionCard.BaseCommand | src/components/TransactionCard.tsx:24 | Windows gets `windowsCommand`, Mac gets `macCommand` |
| TransactionCard.OptionText | src/components/TransactionCard.tsx:29-33 | no text exactly when the command has no options or none with the id; otherwise the OS text of the first option with the id |
| TransactionCard.Truthy | src/components/TransactionCard.tsx:34 | only non-empty strings survive; a single entry survives, as itself, exactly when it is a non-empty string; nothing survives exactly when every entry is null or empty |
| TransactionCard.TruthyAppend | src/components/TransactionCard.tsx:34 | the filter works element by element, keeping order |
| TransactionCard.OptionTexts | src/components/TransactionCard.tsx:28-33 | entry i is the text of option id i |
| TransactionCard.OptionTextsAppend | src/components/TransactionCard.tsx:28-33 | mapping works id by id |
| TransactionCard.ResolvedOptions | src/components/TransactionCard.tsx:28-34 | at most one text per id, none of them empty |
| TransactionCard.ResolvedOptionsAppend | src/components/TransactionCard.tsx:28-34 | option texts follow the order of the ids |
| TransactionCard.ResolvedOption | src/components/TransactionCard.tsx:29-34 | a single id contributes its text when it resolves to a non-empty one, and nothing otherwise |
| TransactionCard.ModelGenerateOptionTexts | src/data/commands.ts:43-56 | the model generator resolves `name` to `--name {モデル名}` and has no `underscored` option |
| TransactionCard.BuildCommand | src/components/TransactionCard.tsx:17-42 | no command id (or an empty one) gives null; a result exists exactly when the id is present and some command has it |
| TransactionCard.BuildCommandOfFirstMatch | src/components/TransactionCard.tsx:21-38 | the first command with the id is used; without surviving options the line is its base command for the OS, otherwise the base command, a space and the option texts joined by spaces |
| TransactionCard.ModelGenerateOptions | src/data/transactions.ts:27-28 | for `name` and `underscored` on the model generator only the `name` option text survives |
| TransactionCard.NewTableFirstStep | src/data/transactions.ts:26-30 | the first step of the new-table transaction builds `sequelize model:generate --name {モデル名}` |
| ImageConverter.FormatName | src/components/ImageConverter.tsx:8 | every format name has three or four characters and no dot or slash |
| ImageConverter.ConvertRoute | src/components/ImageConverter.tsx:31-47 | no source image means no conversion; svg output always traces; otherwise an SVG data URL takes the SVG-to-raster path and anything else the raster path |
| ImageConverter.MimeType | src/components/ImageConverter.tsx:81-84 | every MIME type is an `image/` type, and anything outside the chain falls back to bmp |
| ImageConverter.MimeTypeOfRasterFormat | src/components/ImageConverter.tsx:167-170 | every raster format is encoded as the image type of its own name |
| ImageConverter.RasterEncoding | src/components/ImageConverter.tsx:74-87 | the MIME type is the format's own; the quality is 0.9 for jpeg and unset otherwise; the white fill happens exactly for jpeg |
| ImageConverter.SvgCanvasSize | src/components/ImageConverter.tsx:150-151 | the canvas is never empty: a zero width becomes 800 and a zero height 600, other sizes are kept |
| ImageConverter.ExtensionAtUnique | src/components/ImageConverter.tsx:195 | the extension pattern matches in at most one place |
| ImageConverter.ExtensionFrom | src/components/ImageConverter.tsx:195 | the backward scan finds a match of the extension pattern when there is one and reports none only when nothing matches |
| ImageConverter.StripExtension | src/components/ImageConverter.tsx:195 | the base name is a prefix of the file name; it is the whole name exactly when the pattern does not match, and otherwise ends where the match begins |
| ImageConverter.StripLastExtension | src/components/ImageConverter.tsx:195 | a base, a dot and an extension without dots or slashes lose only the extension, whatever dots the base holds |
| ImageConverter.StripOneOfTwoExtensions | src/components/ImageConverter.tsx:195 | `a.tar.gz` becomes `a.tar` |
| ImageConverter.DownloadName | src/components/ImageConverter.tsx:195-196 | the download name starts with the base name and ends with a dot and the format |
| ImageConverter.DownloadNameBase | src/components/ImageConverter.tsx:195-196 | a downloaded file keeps its base name when converted again, and only the format extension changes |
| TextEditor.TxtFilename | src/components/TextEditor.tsx:19 | the name always ends with `.txt` and starts with the given name; a name with the suffix is kept, any other gets it appended |
| TextEditor.TxtFilenameIdempotent | src/components/TextEditor.tsx:19 | adding the suffix twice is the same as once |
| TextEditor.TxtFilenameCaseSensitive | src/components/TextEditor.tsx:19 | `a.TXT` becomes `a.TXT.txt` |
| TextEditor.DownloadName | src/components/TextEditor.tsx:8-19 | text that is blank after trimming downloads nothing; other text downloads under the name `TxtFilename` gives, which ends in `.txt` |
| Strings.TrimEmptyIffBlank | src/components/DummyFileCreator.tsx:55 | `trim` yields the empty string exactly when every character is white space |
| Strings.LowerIdempotent | src/components/TextDiff.tsx:46 | lower-casing twice is lower-casing once |
| DetectOS.StartsWithContains | src/utils/detectOS.ts:18-20 | a string starting with a pattern contains it |
| DetectOS.MacTestIsSubstringTest | src/utils/detectOS.ts:15-21 | the exact platform names are covered by the substring test, which alone decides |
| DetectOS.Detect | src/utils/detectOS.ts:5-36 | no window or navigator gives windows; mac exactly when the lower-cased platform or user agent contains `mac`; linux exactly when it is not mac and a linux test holds; otherwise windows |
| DetectOS.MacBeforeLinux | src/utils/detectOS.ts:15-32 | a user agent naming both systems is classified as mac |
| DetectOS.DetectIgnoresCase | src/utils/detectOS.ts:11-12 | classification ignores the case of both strings |
| UseOS.DetectMacOrWindows | src/hooks/useOS.ts:8-30 | mac exactly when a navigator exists and the lower-cased platform or user agent contains `mac`; anything else is windows, never linux |
| UseOS.AgreesWithUtility | src/hooks/useOS.ts:14-29 | the hook says mac exactly when the utility does, and windows wherever the utility says linux or windows |

## Left out

- The diff library (`diff_main`, `diff_cleanupSemantic`) is not modelled. Its chunk list is a parameter, and `IsDiffOf` states the one property relied on. Minimality of the diff and semantic cleanup are not modelled.
- `toLowerCase` is modelled on ASCII letters only. Unicode case mapping is not modelled.
- `parseFloat` and IEEE arithmetic are not modelled. The size field's value is an exact real, or `None` for NaN. `Infinity`, float rounding in `size * multiplier` and `toLocaleString` formatting are not modelled.
- The `alert` texts are not modelled; only which branch raises one is. The boundary-test alert always names a `_minus1` file, even when that file is not created.
- Browser I/O is not modelled: Blob, object URLs and anchor downloads, the clipboard, `setTimeout`, FileReader, Image, canvas drawing, ImageTracer, `btoa`/`atob`, and the SVG base64 decoding in the image download. The downloads are returned as plans or names instead.
- `localStorage`, `matchMedia` and the dark-mode hook are not modelled.
- The `navigator` reads are not modelled. Whether `window`/`navigator` exist, and the platform and user-agent strings, are parameters.
- React state, memos, effects and refs are not modelled. Memos become functions of their inputs. The `useOS` hook body only stores `detectOS()`.
- Line styling (`getLineStyle`), JSX, icons, the sidebar and the page switch are not modelled.
- ImageConverter.DownloadName: takes the output format as a parameter and does not tie it to the format the image was converted to. In the component, `handleDownload` names the file after the format selected now (`ImageConverter.tsx:194-196`). The format buttons only set `outputFormat` (`ImageConverter.tsx:278`). Only a new upload clears the converted image (`ImageConverter.tsx:26`). So choosing another format after converting downloads the earlier encoding under the new extension, and this model does not capture that.
- TransactionCard.BuildCommand: takes the step itself rather than `stepIndex` into `transaction.steps`.
- TextDiff.PushUnifiedChunk: the inner `forEach` callbacks are separate methods (`PushUnifiedChunk`, `PushUnifiedLine`, and the split counterparts). The pushes and counter updates happen in the same order as in the source.
- DummyFileCreator.CalculateBytes: works on exact reals, so it omits float rounding of the product and sizes beyond the float range.
- The data files are not modelled as tables. Entries of `src/data/commands.ts` and `src/data/transactions.ts` appear only as fixtures.
- `CommandCategory`, `Command` and `Transaction` are not part of `src/types/index.ts`. Their shapes are derived from the data files and from `TransactionCard.tsx`. A category is kept as its string.
