# EDL parser: a verified model

EDL_parser is a small desktop tool. It reads an edit decision list (EDL) from a
video editor, picks out the audio clip names it refers to, and shows them in a
sortable table. The table lists clip, shot, episode and season. This project
models the logic behind that tool in `src/edlParser/edl_parser.py` and proves
what that logic guarantees:

- **Scanning the EDL** (`parse_edl`, module `EdlScan`).
  - The scan keeps the lines that start with `* FROM CLIP NAME:`.
  - From each kept line it takes the text after the first `': '` (up to the next `': '`) and strips it.
  - It keeps that token when the pattern matches it from its start.
  - It keeps each token once, in order of first appearance.
  - It is a method with a loop, proved against `Dedup(Qualifying(lines, matches))`.
  - A marker line without `': '` makes `split(': ')[1]` raise, so the scan returns an error naming that line.
- **Parsing a clip name** (`Clip.from_file` and `get_attributes`, module `Clips`).
  - The name is cut at its first `-`.
  - The part before the cut must start with `s` + 2 digits + `e` + 2 digits + `_` + 3 digits.
  - The numbers become fixed-width fields: season `sNN`, episode `eNNN`, shot `NNNN`.
  - Because the widths are fixed, string order on a field is numeric order.
  - A name that does not follow the convention is an error, because the code calls `.groups()` on `None`.
- **The table model** (`TableModel`, module `Table`).
  - This is a class holding the clips as a `seq` field.
  - It has `rowCount`, `columnCount` and `data`, which uses Python indexing, so negative indices count from the end.
  - `sort` sorts stably and ascending by the chosen attribute, then reverses for descending order.
  - `update_data` replaces the clips wholesale.
- **Loading a file into the viewer** (`_update_file`, module `EdlViewer`).
  - It scans with the viewer's pattern `s+[0-9]{2}e+[0-9]{2}_+[0-9]{3}-.+\.wav`, recognised by hand and proved equal to a part-by-part reading of the pattern.
  - It parses every token and hands the clips to the table model.
  - The pattern accepts repeated `s`, `e` and `_`, which `from_file` rejects (`ss01e10_006-x.wav`). For such an EDL the exception escapes `_update_file` before `populate_table` (line 255) is reached, so the model leaves the rows unchanged.

The supporting modules:

- `PyStrings` covers the Python `str` operations used: `isspace`, `strip`, `split`, `startswith`, `zfill`, and `<` on strings.
- `Sequences` covers order-preserving de-duplication, `list.reverse` and the all-or-first-error list comprehension.
- `Sorting` covers stable sorting by a string key (`list.sort(key=...)`).
- `EdlExamples` holds concrete instances of the properties.

The file is given as the sequence of lines that iterating over it yields; each line may keep its `"\n"`.
`parse_edl`'s pattern argument is a predicate `matches` standing for `re.match(pattern, token)`.

Three consequences of the code as written:

- A marker line without `': '` raises IndexError at line 30, so the scan aborts.
- A token that `from_file` rejects raises at line 252, so loading aborts.
- The shot is `shot.zfill(4)` with no letter in front (line 60).

## Model

| member | source | states |
|---|---|---|
| EdlScan.ParseEdl | src/edlParser/edl_parser.py:18-33 | the scan fails exactly when some marker line lacks `': '`, and names the first such line; otherwise its result is the order-preserving de-duplication of the qualifying tokens |
| EdlScan.ParseEdlResult | src/edlParser/edl_parser.py:26-33 | a successful scan's result has no duplicates; a token is in it iff some line starts with the marker and yields that stripped token accepted by the pattern; it is no longer than the file; tokens stand in the order of their first qualifying line |
| EdlScan.ClipInfo | src/edlParser/edl_parser.py:30 | the clip info of a line is absent exactly when the line has no `': '` |
| EdlScan.ClipInfoIsStrippedSecondPart | src/edlParser/edl_parser.py:30 | the clip info exists iff `line.split(': ')` has a second part, and then it is that part stripped |
| EdlScan.LineToken | src/edlParser/edl_parser.py:29-31 | a line yields a token iff it starts with the marker, has `': '`, and the pattern accepts its stripped second part, and then the token is that part |
| EdlScan.ScanStep | src/edlParser/edl_parser.py:28-32 | one line of the scan: a non-marker line changes nothing; a marker line with `': '` appends its token if the pattern accepts it and it is new, and changes nothing otherwise |
| PyStrings.Strip | src/edlParser/edl_parser.py:30 | `strip()` result is no longer than its input and neither starts nor ends with white space |
| PyStrings.StripRemovesOnlyOuterSpace | src/edlParser/edl_parser.py:30 | `strip()` returns a contiguous slice of its input, with only white space before and after it |
| PyStrings.Split | src/edlParser/edl_parser.py:30 | `split(sep)` always has at least one part (also used at line 55) |
| PyStrings.SplitJoin | src/edlParser/edl_parser.py:30 | joining the parts of `split(sep)` with `sep` gives back the string, and no part contains `sep` |
| PyStrings.SplitHasSecondPart | src/edlParser/edl_parser.py:30 | `split(sep)` has an element at index 1 iff `sep` occurs in the string |
| PyStrings.SecondField | src/edlParser/edl_parser.py:30 | the second field is absent exactly when the separator does not occur |
| PyStrings.SecondFieldIsSplit | src/edlParser/edl_parser.py:30 | the second field is `split(sep)[1]` whenever that index exists, and absent otherwise |
| PyStrings.FindFromIsFirst | src/edlParser/edl_parser.py:30 | the separator search finds the leftmost occurrence at or after its start, and nothing when there is none |
| PyStrings.SplitHead | src/edlParser/edl_parser.py:55 | `split('-', 1)[0]` is a prefix of the name, contains no `-`, and is followed by `-` unless it is the whole name |
| PyStrings.ZFill | src/edlParser/edl_parser.py:58-60 | `zfill(width)` returns a string of length `max(len, width)` |
| PyStrings.ZFillKeepsValue | src/edlParser/edl_parser.py:58-60 | zero-filling a digit string keeps it a digit string that denotes the same number |
| PyStrings.StrLtTotal | src/edlParser/edl_parser.py:139 | `<` on strings, the comparison the sort uses, is total and asymmetric |
| PyStrings.StrLtTransitive | src/edlParser/edl_parser.py:139 | `<` on strings is transitive |
| PyStrings.DigitStringOrder | src/edlParser/edl_parser.py:139 | on digit strings of equal length, string `<` coincides with `<` on the numbers they denote |
| Sequences.Dedup | src/edlParser/edl_parser.py:31-32 | the de-duplicated tokens are never more than the qualifying ones |
| Sequences.DedupAppend | src/edlParser/edl_parser.py:31-32 | appending a token to the input extends the de-duplicated output by it exactly when it is not already there |
| Sequences.DedupContents | src/edlParser/edl_parser.py:31-32 | the de-duplicated sequence has no duplicates, the same elements as its input, and is no longer |
| Sequences.DedupFirstOccurrenceOrder | src/edlParser/edl_parser.py:31-32 | the de-duplicated elements stand in the order of their first occurrences in the input |
| Sequences.FilterMapMembers | src/edlParser/edl_parser.py:28-32 | the qualifying tokens are exactly the tokens some line yields, at most one per line |
| Sequences.MapAll | src/edlParser/edl_parser.py:252 | a successful comprehension has one value per element |
| Sequences.MapAllResult | src/edlParser/edl_parser.py:252 | the comprehension succeeds iff every element succeeds, and then holds their values in order; otherwise it fails with the first failure's error |
| Sequences.Reverse | src/edlParser/edl_parser.py:141 | `reverse()` keeps the length |
| Sequences.ReverseProperties | src/edlParser/edl_parser.py:140-141 | `reverse()` keeps length and multiset and moves element `k` to index `len-1-k` |
| Sorting.SortBy | src/edlParser/edl_parser.py:139 | the key sort keeps the length |
| Sorting.SortByProperties | src/edlParser/edl_parser.py:139 | the key sort is in ascending key order, a permutation of its input, and stable (elements with equal keys keep their order) |
| Sorting.SortByUnique | src/edlParser/edl_parser.py:139 | every stable ascending arrangement by the key is the modelled sort's result, so the model agrees with Python's sort |
| Sorting.ReverseOfSorted | src/edlParser/edl_parser.py:140-141 | reversing an ascending sequence yields a descending one with the same elements |
| Clips.ConventionMatch | src/edlParser/edl_parser.py:56 | a prefix matching `s(\d{2})e(\d{2})_(\d{3})` has at least ten characters and its three groups are digit strings |
| Clips.FromFile | src/edlParser/edl_parser.py:47-65 | a parsed clip keeps the file name and has season `s`+2 digits, episode `e`+3 digits, shot 4 digits; failure is the no-match error for that name |
| Clips.FromFileSucceeds | src/edlParser/edl_parser.py:55-56 | `from_file` succeeds iff the name itself starts with `s`DD`e`DD`_`DDD, so cutting at the first `-` never matters |
| Clips.FromFileFields | src/edlParser/edl_parser.py:55-65 | for a conventional name sD1D2eD3D4_D5D6D7..., the clip is season `s`D1D2, episode `e0`D3D4, shot `0`D5D6D7, name unchanged |
| Clips.FromFileKeepsNumbers | src/edlParser/edl_parser.py:58-60 | each field of a parsed clip denotes the number the name had in that place |
| Clips.FieldOrderIsNumeric | src/edlParser/edl_parser.py:58-60 | on parsed clips, string order of season, episode and shot is numeric order of their numbers |
| Clips.Attributes | src/edlParser/edl_parser.py:67-73 | `get_attributes` lists four distinct names in the order name, shot, episode, season, each with the value `getattr` gives |
| Table.PyIndex | src/edlParser/edl_parser.py:123-125 | a Python list index is valid iff `-n <= i < n`, and a negative one counts from the end |
| Table.SortKeyIsField | src/edlParser/edl_parser.py:139 | the sort key of column `k` is the `k`-th of name, shot, episode, season |
| Table.SortedRowsProperties | src/edlParser/edl_parser.py:137-142 | sorting permutes the rows; ascending gives the stable ascending order by the column; descending gives exactly its reverse, in descending order |
| Table.SortedFieldsAreNumeric | src/edlParser/edl_parser.py:137-142 | sorting parsed clips by shot, episode or season orders them by the field's number |
| Table.TableModel.constructor | src/edlParser/edl_parser.py:106-109 | the model starts with the given clips and header labels |
| Table.TableModel.RowCount | src/edlParser/edl_parser.py:111-112 | one row per clip |
| Table.TableModel.ColumnCount | src/edlParser/edl_parser.py:114-119 | no columns for an empty table, else four |
| Table.TableModel.Data | src/edlParser/edl_parser.py:121-127 | for the display role, a cell exists iff row and column are valid Python indices, and then it is the attribute at the column index (negative counting from the end) of the clip at the row index (likewise); columns 0-3 are name, shot, episode, season; other roles give no data |
| Table.TableModel.Sort | src/edlParser/edl_parser.py:137-142 | the rows become the sorted rows for the column and order; a column out of range raises only when there is a row and then leaves the rows as they were; header labels unchanged |
| Table.TableModel.UpdateData | src/edlParser/edl_parser.py:144-152 | the rows become exactly the new data, the row count is its length, header labels unchanged |
| Table.TableCounts | src/edlParser/edl_parser.py:121-127 | each displayed cell is its column's sort key of its row, so `data` shows what `sort` orders by |
| EdlViewer.ScanMatch | src/edlParser/edl_parser.py:250 | a name the viewer pattern accepts has at least 16 characters and starts with `s` |
| EdlViewer.RunEnd | src/edlParser/edl_parser.py:250 | the end of a run of one character is where the run stops: the run is all that character and the next is not |
| EdlViewer.ScanMatchIsPattern | src/edlParser/edl_parser.py:250 | the hand recogniser accepts a string iff it splits as `s+`, 2 digits, `e+`, 2 digits, `_+`, 3 digits, `-`, newline-free text, `.wav`, then anything |
| EdlViewer.ScanAcceptedNamesThatParse | src/edlParser/edl_parser.py:250 | of the names the viewer pattern accepts, `from_file` parses exactly those without a repeated `s`, `e` or `_` |
| EdlViewer.FromFiles | src/edlParser/edl_parser.py:252 | the clip list exists iff every token parses and then holds each token's clip in order; otherwise the error is the first failing token's |
| EdlViewer.LoadClips | src/edlParser/edl_parser.py:249-252 | loading fails in the scan iff some marker line lacks `': '`, with the first such line; otherwise it is the comprehension over the scanned tokens; loaded clips are well formed, named by their tokens in scan order, and pairwise differently named |
| EdlViewer.UpdateFile | src/edlParser/edl_parser.py:241-255 | the scan fails iff some marker line lacks `': '`, naming the first; otherwise loading succeeds iff every scanned token parses, the table then holding exactly those clips, and fails with the first failing token's error; on failure the table keeps its rows; header labels unchanged |
| EdlExamples.ParseConventionalName | src/edlParser/edl_parser.py:55-65 | `s01e10_006-x.wav` parses to season `s01`, episode `e010`, shot `0006` |
| EdlExamples.RepeatedLetterPassesScanOnly | src/edlParser/edl_parser.py:56 | `ss01e10_006-x.wav` passes the viewer pattern but `from_file` rejects it |
| EdlExamples.OtherNameIsNotScanned | src/edlParser/edl_parser.py:250 | a name without the convention, `intro_music.wav`, is not accepted by the viewer pattern |
| EdlExamples.ExampleLineToken | src/edlParser/edl_parser.py:29-31 | a marker line `* FROM CLIP NAME: s01e10_006-room_tone.wav` with its newline yields that name as token |
| EdlExamples.RepeatedLineYieldsOneToken | src/edlParser/edl_parser.py:26-33 | three copies of that line yield the token once |

## Left out

- The Qt user interface is not modelled because it is presentation only. This covers `FileSelectionWidget`, `TableView`, the `ClipTableWidget` and `EdlViewer` layout, and `headerData` and `flags`. The model notifications `layoutAboutToBeChanged`, `layoutChanged`, `beginResetModel` and `endResetModel` are also left out.
- Opening and reading the EDL file (line 27): the file arrives as its sequence of lines, and I/O errors are not modelled.
- A general regular-expression engine: the pattern of `parse_edl` is a predicate parameter. The two fixed patterns (lines 56 and 250) are recognised by hand.
- `\d` at line 56 matches any Unicode decimal digit in Python; the model accepts only `0`-`9`.
- `_generate_folders` (lines 257-266) only prints, and `main` and the demo and default paths are environment-specific.
- Aliasing: `update_data` stores the caller's list itself, so later changes to that list would show in the table. The model stores a value.
- Timsort's steps: the sort is defined by insertion sort (`Sorting.SortBy`). `SortByUnique` shows that every stable ascending sort gives the same result, so only the algorithm's steps are left out.
- PyStrings.Split requires a non-empty separator; every call in the source uses `': '` or `-`.
- What the Qt runtime does with an exception that escapes the `_update_file` slot (with PyQt5 the application may abort) is not modelled: the model returns the error and leaves the table as it was.
- The `parent` arguments of the Qt methods and the `QModelIndex` object are left out; `data` takes the row and column numbers.
