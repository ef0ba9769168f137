# Zooniverse pre-validation, modelled in Dafny

The tool prepares crowd-sourced camera-trap annotations for review. It has two stages.

**Extraction** (`main.py`) reads an exported classification sheet. It keeps the rows from a chosen start row on whose `workflow_name` matches exactly. For each kept row it decodes two JSON cells:

- the subject data, which gives the image filename;
- the annotation, which gives two species with their counts, plus time of day, temperature, month and habitat.

It appends these values to nine parallel columns.

**Validation** (`secondary.py`) works on the consolidated sheet in four steps:

1. It writes a header row.
2. It groups the frame's rows by filename (0-based column 11). It checks that columns 12 to 15 agree across the group. It then writes one output row per filename in columns A to K: the validation flag, the season, the filename, and either the agreed values or the "NODATA"-resolved fields.
3. It labels the habitat named by the filenames in columns C and L.
4. It writes those labels to columns K and T.

The model is split into five modules, one file each:

| file | module | models |
|---|---|---|
| `runtime.dfy` | `Runtime` | the Python values the stages see: decoded JSON, a cell (text or pandas' NaN), the exceptions that escape, `dict` lookup and `str.find` |
| `classify.dfy` | `Classify` | `extract_season` and `get_habitat_type`, as total functions on text |
| `extraction.dfy` | `Extraction` | `extract_filename` and `extract_annotations`, and the row loop of `main.py` |
| `workbook.dfy` | `Workbook` | the active worksheet as a class whose map of cells is updated in place; `find_next_empty_row`, `create_headings` and `add_habitat_type` |
| `validation.dfy` | `Validation` | `process_data`: `is_valid`, the assignments made for one filename, the group loop as a fold, and methods that make those assignments on the sheet |

The model reproduces the code as written, in three places where it may look surprising:

- **Row 9.** When every row of an invalid group has "NODATA" in column 16, the middle "NODATA" goes to cell (9, 9) rather than to the output row (secondary.py:128). `Validation.InvalidNoDataWrites` states this.
- **Columns left empty.** The invalid branch never writes columns D to G or K of the output row.
- **Two habitat defaults.** The habitat default is "NODATA" when no observation is read (main.py:34). It is the empty string when observation 0 has no HABITAT answer (main.py:53).

Three more behaviours of the code are reproduced as they stand:

- **Uncaught exceptions.** `extract_annotations` and `extract_filename` catch only `JSONDecodeError` and `KeyError`. An empty decoded list, an item that is not a mapping, or a NaN cell raises, and the exception escapes the stage. Such outcomes are `Raised(...)` in the model.
- **Group order.** The groups are processed in the order pandas' `groupby` yields them, which sorts by filename. The model takes that sequence as given, in any order.
- **No width check.** The frame's column count is not checked before processing. Its reads raise `IndexError` in the middle of the group loop, after the earlier groups are written.

## Model

| member | source | states |
|---|---|---|
| Runtime.Lookup | main.py:23-24 | `data[key]` on a decoded object: a value found is one stored under the key, and nothing is found when no member has the key |
| Runtime.LookupFindsLast | main.py:23-24 | a key is found in a decoded object exactly when some member has it, and the value found is that of the last member with that key, as `json.loads` keeps duplicates |
| Runtime.GetOr | main.py:45-53 | `item.get(k, default)` gives the default or a value stored under k; the default whenever the item is not an object or has no member k; a value stored under k whenever the object has a member k |
| Runtime.GetOrFindsLast | main.py:45-53 | when the object has members named k, `get` returns the value of the last of them |
| Runtime.Find | secondary.py:52-54 | the index found is an occurrence of the pattern with none before it; None means the pattern occurs nowhere (`in`, `index`) |
| Classify.Split | secondary.py:44-45 | `str.split` gives at least one piece, and the first piece is a prefix of the text |
| Classify.SplitWithoutSeparator | secondary.py:44 | splitting text without the separator gives the whole text as the single piece |
| Classify.SplitAtSeparator | secondary.py:44-45 | the first piece of a split is the text before the first separator, and the remaining pieces are the split of the text after it |
| Classify.FirstPieceIsBefore | secondary.py:45 | `split(sep)[0]` is the text before the first separator, or all of it |
| Classify.ExtractSeason | secondary.py:41-47 | the season is "Unknown" when the filename has no second `_` piece, and otherwise a prefix of that piece |
| Classify.ExtractSeasonByPosition | secondary.py:41-47 | the season is the text between the first and second underscore (or the end), cut before the first " (", and "Unknown" without an underscore |
| Classify.SeasonUnknownWithoutUnderscore | secondary.py:41-47 | a filename with no underscore has season "Unknown" |
| Classify.HabitatOfCode | secondary.py:56-66 | the code table yields one of the six habitat labels |
| Classify.HabitatCodesMapped | secondary.py:56-66 | a code names a habitat exactly when it is two digits from 01 to 20 other than 14 |
| Classify.HabitatCode | secondary.py:52-54 | the code exists exactly when "CPW" occurs; it is the text after the first "CPW", clipped to two characters or the end of the text |
| Classify.HabitatType | secondary.py:50-68 | `get_habitat_type` on text is total and returns one of the six labels |
| Classify.ShortCodeIsMissing | secondary.py:52-68 | no "CPW", or fewer than two characters after the first, gives "MISSING HABITAT DATA" |
| Classify.HabitatOfCell | secondary.py:50-68 | a non-text cell makes the `in` test raise, the handler returns "MISSING HABITAT DATA", and the result is always one of the six labels |
| Extraction.SubjectFilename | main.py:19-26 | a decode failure gives None; a non-empty object whose first key holds an object gives that object's "Filename", or None without one; the call raises exactly when the decoded value is not an object, is empty, or its first key's value is not an object |
| Extraction.SubjectFilenameOfFirstMember | main.py:23-24 | an object whose first key is unique yields that member's "Filename", or None when it has none |
| Extraction.FilenameOfCell | main.py:19-26 | a NaN cell raises TypeError, and text that does not decode gives None |
| Extraction.Iterate | main.py:41 | iterating a list, an object or a string succeeds: a list yields its elements, an object one item per key, a string one per character; any other value raises TypeError |
| Extraction.Answers | main.py:46-53 | `item.get("answers", {})` is `{}` or a value stored under "answers", and `{}` for an item that is not an object |
| Extraction.ValueOf | main.py:40-41 | `"value" in data[0]` and its iteration raise only TypeError; observations exist only for an object with "value"; an object without "value" leaves the defaults |
| Extraction.Observations | main.py:38-41 | a decode failure or a decoded object leaves the defaults; observations come only from a non-empty list whose first element is an object; only TypeError or IndexError escapes |
| Extraction.Fill | main.py:41-53 | after reading n observations the dictionary has the eight fixed keys and slots 3 to n |
| Extraction.Annotations | main.py:29-57 | a dictionary that is returned always has the eight keys the output reads |
| Extraction.AnnotationsOfCell | main.py:29-57 | the same holds on a cell, and a NaN cell raises TypeError |
| Extraction.FillNothing | main.py:30-35 | reading no observation leaves the defaults |
| Extraction.HoldsIsFill | main.py:41-53 | a dictionary that holds every slot's value for the observations read is the filled dictionary |
| Extraction.SlotValueKept | main.py:41-53 | reading observation i leaves every earlier slot, and the context fields for i > 0, as they were |
| Extraction.SlotValueRead | main.py:45-53 | reading observation i sets slot i + 1 from its "choice" and "HOWMANY"; observation 0 also sets the four context fields, habitat defaulting to "" |
| Extraction.ReadObservationKeys | main.py:42-46 | one loop pass (`ReadObservation`, the body of the `enumerate` loop) adds exactly the keys of slot i + 1 |
| Extraction.ReadObservationValue | main.py:41-53 | after one loop pass (`ReadObservation`), each key holds its value for the observations read so far |
| Extraction.HoldsStep | main.py:41-53 | one loop pass keeps the loop invariant, for one more observation |
| Extraction.ReadObservations | main.py:41-53 | the loop returns the filled dictionary when every observation is an object whose "answers" is an object; otherwise it raises AttributeError |
| Extraction.ExtractAnnotations | main.py:29-57 | `extract_annotations` computes `AnnotationsOfCell`: NaN raises TypeError, errors from `data[0]` escape, and no observations gives the defaults |
| Extraction.DefaultsWhenNoObservations | main.py:30-40 | a decode failure, a decoded object, a non-empty string, or a list whose first element is an object without "value" gives exactly the defaults: "NONE" for species and counts, "NODATA" for the context fields |
| Extraction.AnnotationsOfValueList | main.py:37-53 | a decoded list whose first element is an object whose "value" is the list `obs` returns the dictionary filled from `obs`, or AttributeError when some observation is not an object with object "answers" |
| Extraction.EmptyValueListGivesDefaults | main.py:41 | an empty "value" list gives exactly the defaults |
| Extraction.SlotsFromObservations | main.py:42-46 | species n and count n come from observation n - 1, defaulting to "NONE" |
| Extraction.ContextFromFirstObservation | main.py:49-53 | two observation lists with the same observation 0 have the same four context fields |
| Extraction.HabitatDefaultAsymmetry | main.py:30-53 | habitat is "" when observation 0 lacks HABITAT, and "NODATA" with no observation |
| Extraction.LaterObservationsIgnored | main.py:41-53 | observations after the second never change the eight output fields |
| Extraction.From | main.py:105 | `df.iloc[k:]` holds the rows from position k on, in order, and nothing when k is past the end |
| Extraction.Matching | main.py:108-111 | the kept rows are among the input rows and each has exactly the workflow name; every matching row is kept, as many times as it occurs, and no other |
| Extraction.MatchingConcat | main.py:108-111 | the filter distributes over concatenation, so the kept rows stay in source order |
| Extraction.MatchingOne | main.py:110-111 | a single row is kept exactly when its workflow name is the one given |
| Extraction.RecordOf | main.py:114-117 | a record that is returned has the eight keys the output reads |
| Extraction.Records | main.py:108-128 | the records of a run that does not raise all have those eight keys |
| Extraction.SomeRaisesCons | main.py:114-117 | a list of rows raises exactly when its first row or one of the rest does |
| Extraction.RecordsRaiseIff | main.py:108-128 | the loop raises exactly when extracting some matching row raises |
| Extraction.RecordsFollowMatchingRows | main.py:108-128 | without an exception there is one record per matching row, in source order, each extracted from its row |
| Extraction.ColumnsAligned | main.py:92-128 | the nine columns have one entry per record, and row i holds record i's filename and eight fields |
| Extraction.AlignedSnoc | main.py:120-128 | appending one record's filename and eight fields to the nine columns keeps them aligned with the records |
| Extraction.RecordsStep | main.py:108-128 | a matching row whose record is extracted contributes that record before those of the rows after it |
| Extraction.ExtractRows | main.py:78-128 | no start row, or a missing or empty workflow name, stops before any row; otherwise the first escaping exception, or nine aligned columns built from the matching rows from `start_row` on |
| Workbook.Sheet.constructor | secondary.py:80-81 | the loaded sheet holds the given cells within its `max_row` |
| Workbook.Sheet.SetCell | secondary.py:105 | assigning a cell changes that cell alone and extends `max_row` to cover it |
| Workbook.GetAfterSet | secondary.py:105 | after an assignment, every other cell reads as before |
| Workbook.NextEmptyRow | secondary.py:34-38 | on a sheet with `max_row` at least 1, the row found lies between 2 and `max_row + 1` |
| Workbook.FirstEmptyFrom | secondary.py:35-38 | the scan from r never passes `limit - 1` and never returns a row before r |
| Workbook.FirstEmptyFromSpec | secondary.py:34-38 | the scan from r stops at the first row with columns A to K empty |
| Workbook.NextEmptyRowSpec | secondary.py:34-38 | the next empty row lies between 2 and `max_row + 1`; its columns A to K are empty, and every row from 2 before it has a value there |
| Workbook.NextEmptyRowUnique | secondary.py:34-38 | any row with that description is the next empty row |
| Workbook.NextEmptyRowIgnoresBound | secondary.py:35-38 | the result does not depend on how far `max_row` reaches past the last value |
| Workbook.NextEmptyRowGrows | secondary.py:141 | adding values never moves the next empty row up; filling column A of it moves it down |
| Workbook.FindNextEmptyRow | secondary.py:34-38 | the scanning loop returns the next empty row |
| Workbook.CreateHeadings | secondary.py:16-31 | row 1, columns A to K, takes the eleven headers; every other cell and `max_row` are unchanged |
| Workbook.HeadingsKeepNextEmptyRow | secondary.py:16-38 | the header row does not change the next empty row |
| Workbook.TruthyCount | secondary.py:162 | the count of true cells is between 0 and the number of rows counted |
| Workbook.HabitatBoundIsMaxRow | secondary.py:161-164 | the bound `add_habitat_type` computes is `max_row` |
| Workbook.AddHabitatType | secondary.py:155-181 | over rows 2 to `max_row`, column K takes the habitat of column C where C is true, and column T that of column L where L is true; nothing else changes |
| Workbook.Enriched | secondary.py:155-181 | only columns K and T of rows 2 to `max_row` can change, and a changed cell holds one of the six habitat labels |
| Workbook.EnrichedIgnoresBound | secondary.py:161-178 | the result does not depend on how far `max_row` reaches past the last value |
| Workbook.EnrichedLabels | secondary.py:167-178 | every habitat written is one of the six labels |
| Validation.IsValid | secondary.py:102 | a valid group has at least one row, and column 12 has exactly one distinct value |
| Validation.Distinct | secondary.py:102 | `nunique` of a column with NaN dropped: a group without rows has no distinct value |
| Validation.DistinctOne | secondary.py:102 | a column has exactly one distinct value ignoring NaN exactly when it has a value and all its values are equal |
| Validation.IsValidMeans | secondary.py:102 | a group is valid exactly when each of columns 12 to 15 has a value and no two of its values differ; an all-NaN column makes it invalid |
| Validation.FirstNotNoData | secondary.py:123-132 | the position found is the first row whose column 16 is not "NODATA"; None means every row has "NODATA" there |
| Validation.Head | secondary.py:105-112 | the head is three assignments, to columns C, A and B of the output row in that order |
| Validation.Copies | secondary.py:115-137 | the k-th copy writes source column `from + k` to column `to + k` of the output row |
| Validation.Tail | secondary.py:115-137 | the assignments after the head go to columns D to K of the output row or to cell (9, 9); the only error is IndexError, and only for a frame narrower than 20 columns |
| Validation.GroupWrites | secondary.py:102-137 | every assignment goes to columns A to K of the output row or to cell (9, 9); a frame narrower than 16 columns raises before any; the only error is IndexError, and only below 20 columns |
| Validation.CopiesLast | secondary.py:115-137 | after the copies, column `to + k` of the output row last received source column `from + k` |
| Validation.ApplyGet | secondary.py:105-137 | after a run of assignments (`Apply`, the `sheet.cell(...).value = ...` statements in order), each cell holds the last value assigned to it, or its old value |
| Validation.ApplyBounds | secondary.py:105-137 | assignments keep the sheet within `max_row` and remove no value |
| Validation.LastWriteNone | secondary.py:105-137 | a cell no assignment names has no last assignment |
| Validation.ApplyConcat | secondary.py:105-137 | two runs of assignments in sequence are their concatenation |
| Validation.GroupWritesShape | secondary.py:105-137 | every assignment for a filename is to columns A to K of the output row or to cell (9, 9), and columns C, A and B come first |
| Validation.HeadCells | secondary.py:105-112 | columns C, A and B of the output row end with the filename, the flag and the season |
| Validation.ValidWrites | secondary.py:115-118 | with at least 20 columns, a valid group's assignments leave the first row's columns 12 to 19 in D to K |
| Validation.InvalidCopyWrites | secondary.py:130-137 | an invalid group with a row not marked "NODATA": its assignments leave that row's columns 16 to 18 in H to J and assign nothing to D to G or K |
| Validation.InvalidNoDataWrites | secondary.py:125-129 | an invalid group marked "NODATA" throughout: its assignments leave "NODATA" in H and J of the output row and in cell (9, 9), and assign nothing to D to G, K, or I unless the output row is row 9 |
| Validation.RowKeptConsolidated | secondary.py:102-137 | a row holding what its group's assignments left is that group's consolidated row: filename, flag, season and the branch's D to K |
| Validation.LogKeptStep | secondary.py:105-137 | a later filename's assignments leave columns A to K of every earlier output row as they were, cell (9, 9) aside |
| Validation.UntouchedKept | secondary.py:105-137 | a later filename's assignments change no cell outside its output row and (9, 9) |
| Validation.NewRowKept | secondary.py:105-141 | a new filename's output row holds what its assignments left, columns it does not assign stay empty, and the next empty row moves past it |
| Validation.AscendingSnoc | secondary.py:97-141 | a new filename at a row past the earlier ones keeps the output rows distinct and ascending |
| Validation.Step | secondary.py:97-141 | one pass adds the filename to `written_filenames`, changes nothing for a filename already written, logs at most one output row, and can raise only IndexError below 20 columns |
| Validation.ProcessAll | secondary.py:92-141 | the loop stops at the first error, never drops a written filename or an output row, and can raise only IndexError below 20 columns |
| Validation.Start | secondary.py:84-87 | the loop starts with the sheet as loaded, no written filename, no output row, no error, and `next_row` between 2 and `max_row + 1` |
| Validation.StartConsistent | secondary.py:84-87 | the run invariant holds before the first group |
| Validation.StepConsistent | secondary.py:92-141 | one group keeps the run invariant |
| Validation.ProcessAllConsistent | secondary.py:92-141 | a run that does not raise keeps the invariant, and `written_filenames` gains exactly the groups' filenames |
| Validation.StepExtends | secondary.py:97-141 | one pass extends the log by at most its own group |
| Validation.ProcessAllExtends | secondary.py:92-141 | the run's log extends its starting log by groups of the run alone |
| Validation.LogConsolidated | secondary.py:102-137 | every logged output row that keeps its group's assignments is that group's consolidated row |
| Validation.ProcessDataSpec | secondary.py:72-141 | without an IndexError: one output row per filename, at distinct ascending rows from 2, each for a group of that filename; each row holds the filename in C, that group's own `is_valid` flag in A, its season in B, and in D to K the first row's columns 12 to 19 when valid, otherwise the "NODATA" marks or the first non-"NODATA" row's columns 16 to 18 in H to J with D to G and K empty; every cell outside the output rows' A to K and (9, 9) keeps its value |
| Validation.DuplicateSkipped | secondary.py:97-99 | a group whose filename is already written changes nothing |
| Validation.RunErrors | secondary.py:102-137 | only IndexError escapes the loop, and a frame of at least 20 columns never raises |
| Validation.NarrowFrameRaises | secondary.py:102 | with fewer than 16 columns the first new filename raises IndexError before any write |
| Validation.WriteHead | secondary.py:102-112 | the method makes the head assignments on the sheet |
| Validation.CopyValid | secondary.py:115-118 | the copy loop makes the valid copies up to the frame's edge and returns the IndexError of the first column beyond it |
| Validation.WriteNoData | secondary.py:125-129 | the method writes the three "NODATA" cells, one of them (9, 9) |
| Validation.CopyFirstNotNoData | secondary.py:130-137 | the method copies columns 16 to 18 up to the frame's edge, with the IndexError of a missing column |
| Validation.WriteInvalid | secondary.py:121-137 | the invalid branch: reading column 16 raises for a frame without it; then the "NODATA" writes or the copy |
| Validation.WriteGroup | secondary.py:102-137 | the sheet ends as the assignments for a new filename leave it, and the error returned is theirs |
| Validation.ProcessData | secondary.py:72-141 | the sheet and the escaping error are those of the group loop run from the sheet's next empty row |

## Left out

- Tkinter file dialogs, input prompts, message boxes and the loading window are not modelled. The prompts' answers are parameters of `Extraction.ExtractRows`.
- The worker thread, `root.after` and the progress callback are not modelled; they only observe counters.
- The order `process_excel_in_thread` calls the three sheet operations in is not modelled as a whole. Each stage reloads and saves the file, and that file I/O is outside the model.
- Reading and writing files is not modelled: `pd.read_excel`, `to_excel`, `openpyxl.load_workbook` and `save`. The sheet is an in-memory map passed in. When an exception escapes `process_data`, `save` is never reached and the file keeps its earlier content; the model only returns the in-memory sheet and the error.
- The decoding inside `json.loads` is not modelled. It is the parameter `loads`, where None stands for `JSONDecodeError`.
- JSON floating-point numbers are not modelled, and neither are numeric or date cell values. A cell is text or NaN.
- pandas `groupby` is not modelled: sorting the keys, dropping null keys, and non-text keys. The groups are given as a sequence of (filename, rows) pairs, and every row has the frame's width. A frame narrower than 12 columns fails at `df.columns[11]` before any group. In the model it appears as the IndexError of the first group, and with no groups the model reports no error.
- Workbook.FindNextEmptyRow: the empty cells openpyxl creates while reading are not modelled, so the scan does not grow `max_row`. `NextEmptyRowIgnoresBound` and `EnrichedIgnoresBound` show that the results do not depend on that bound.
- Workbook.AddHabitatType: a filename holding a number rather than text is not modelled.
- Extraction.ExtractRows: its precondition requires a start row of at least 1, which the `minvalue=1` of the prompt guarantees (main.py:62).
- The extra `species_n` and `how_many_n` keys for observations after the second are modelled in `Fill`. The columns never read them.
- Validation.ProcessDataSpec: the final content of cell (9, 9) is not tied to a group, because each group marked "NODATA" throughout overwrites it; every other cell of an output row is stated.
