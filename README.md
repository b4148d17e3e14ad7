# MWUtil table pipeline, modelled in Dafny

This project models the table-normalisation pipeline of `MWUtil.py`, a Metabolomics
Workbench notebook helper. It covers five pieces:

- **Text normaliser** (`_ProcessDataTableText`). The module `DataTable` models it. It
  turns `\r\n` and `\r` into `\n` and splits lines on one separator character. It
  rebuilds the header, optionally renaming the sample and class columns and inserting
  `ClassNum`. It drops every data line with two or fewer fields. With `AddClassNum`, it
  numbers class labels 1, 2, 3, … in order of first appearance and inserts each row's
  code as its third field. It returns the joined text and the label-to-code dictionary.
  The imperative method `ProcessDataTableText` is proved equal to the specification
  function `ParseDataTable`, which the lemmas are about.
- **Analysis merge** (`_ProcessAnalysisData`). The module `Store` models it. The
  two-level store study → analysis → record is a class whose field the method updates
  in place. A document with a top-level `study_id` is filed as the single entry `"1"`.
  Every entry's record holds all its fields except `study_id` and `analysis_id`, in
  any letter case. A later entry for the same analysis replaces the earlier one.
- **Missing values** (`GetNumberOfMissingValue`, `CoerceDataFramColumnValuesToNumeric`,
  `ProcessMissingValues`). The modules `Frames` and `MissingValues` model these.
  - A frame has sample-labelled rows and cells that are text, a number or NaN.
  - The NaN count, `dropna(axis=0)`, `dropna(axis=1)` and `fillna(0)` are functions.
  - Column coercion is a method on a `DataFrame` object that overwrites one column
    after the other.
  - The method dispatch matches names as `re.match("^Name$", m, re.I)` does.
- **UIF planner** (`SetupUIFDataForStudiesAnalysisAndResults`). The module `Uif`
  models it. The loop over studies and analyses, with its `NewStudy` flag, is a method.
  It is proved equal to the fold `PlanUif`. The lemmas about `PlanUif` state which
  studies and analyses qualify, what is recorded for them, and in which order.
- **Input rules**. The module `Inputs` models how a line of study IDs is cut into IDs
  (`re.sub("[ ]+", " ")`, then `split(" ")`). It also models which separator an
  uploaded file is read with: `os.path.splitext`, then `re.match("^(\.txt)|(\.tsv)$")`.

Python dictionaries keep insertion order, and the planner's output depends on it. A
dictionary is therefore modelled as `OrderedDicts.Dict`: its keys in insertion order
plus a map. The class dictionary of a table is an association list (`DataTable.ClassMap`).

Four behaviours of the code are easy to misread; the model follows the code in each:

- `MetaboliteIDs` is `ColumnNames[3:]` of a frame whose index is already `Samples`. Its
  columns are `[Class, ClassNum, feature1, …]`, so the first feature is not recorded,
  and an analysis needs more than three columns, that is at least two features, to
  qualify (`Uif.MetaboliteNames`, `Uif.NarrowFramesNeverOffered`).
- `ClassIDs` receives `extend(class_names_to_nums)`. That extends by the dictionary's
  keys, so it holds the class names in first-appearance order, not the codes
  (`Uif.ClassNames`).
- The docstring of `ProcessMissingValues` names `ReplaceColumnMedian`. The dispatch only
  knows `ReplaceByColumnMedian`, so the documented name is an unknown method and leaves
  the frame unchanged (`MissingValues.DocumentedMedianNameIsUnknown`,
  `MissingValues.DocumentedMedianNameKeepsFrame`).
- Feature labels come only from tokens 2 onwards of the first line. A header line with
  only the two tokens `Samples` and `Class` therefore becomes `Samples`, `Class`,
  `ClassNum` and names no feature (`DataTable.TwoTokenHeaderHasNoFeatures`).

## Model

| member | source | states |
|---|---|---|
| OrderedDicts.Put | MWUtil.py:239-249 | `d[k] = v`: the map gets the new value; an existing key keeps its position, a new key is appended; the keys stay distinct and match the map |
| Text.Split | MWUtil.py:258 | `str.split` on one character: at least one part, and no part contains the separator |
| Text.JoinSplit | MWUtil.py:258 | joining the parts of a split with the same separator gives the original string back |
| Text.SplitJoin | MWUtil.py:303-305 | splitting a join of separator-free parts gives the parts back |
| Text.Join | MWUtil.py:277-305 | `Sep.join` and `"\n".join`: the parts with one separator between each two neighbours and none at the ends; read back by `Text.JoinSplit` and `Text.SplitJoin` |
| Text.NormalizeNewlines | MWUtil.py:257 | no `\r` remains; text without `\r` is unchanged; the text never grows |
| Text.NormalizeKeepsText | MWUtil.py:257 | only line-break characters are rewritten: removing all line breaks gives the same text before and after |
| Text.NormalizeAppend | MWUtil.py:257 | the rewrite works piece by piece: normalising `a + b` gives the normalised `a` then the normalised `b`, unless the cut splits a CR LF pair |
| Text.NormalizeCrLf | MWUtil.py:257 | a CR LF pair anywhere in the text becomes exactly one LF, and the text on both sides is normalised on its own |
| Text.NormalizeLoneCr | MWUtil.py:257 | a CR not followed by LF becomes exactly one LF, and the text on both sides is normalised on its own |
| Text.SplitAtSeparator | MWUtil.py:101 | a separator ends the parts before it: splitting `a`, separator, `b` gives the parts of `a` followed by the parts of `b` |
| Text.NatToString | MWUtil.py:298 | `"%s" % ClassNum`: a non-empty string of decimal digits with no leading zero |
| Text.NatToStringRoundTrip | MWUtil.py:298 | the printed code reads back as the same number |
| Text.NatToStringInjective | MWUtil.py:298 | different codes are printed differently |
| Text.SameIgnoringCase | MWUtil.py:335-354 | one character against one pattern letter under `re.I`: ASCII letters match in either case; besides that, `İ` (U+0130) and dotless `ı` (U+0131) match `i`, long `ſ` (U+017F) matches `s`, and the Kelvin sign (U+212A) matches `k`; every other character matches only itself; the field-name test at line 246 uses the same rule |
| Text.FullMatchIgnoringCase | MWUtil.py:335-354 | `re.match("^word$", s, re.I)` for a word without metacharacters: `s` has the length of the word, or one more when its last character is a line feed (`$` also matches before a final `\n`), and each position matches under `Text.SameIgnoringCase`; used by `MissingValues.ChooseStrategySound`, `MissingValues.ChooseStrategyComplete` and `Store.IsIdField` |
| Inputs.CollapseSpaces | MWUtil.py:99 | `re.sub("[ ]+", " ")`: no two adjacent spaces remain; the result is empty iff the input is; a leading space is kept iff there was one |
| Inputs.CollapseKeepsText | MWUtil.py:99 | only spaces change: without spaces, input and output are the same text |
| Inputs.CollapseIdentity | MWUtil.py:99 | text without a double space is left unchanged |
| Inputs.Spaces | MWUtil.py:99 | a run of `n` spaces, the text `[ ]+` matches |
| Inputs.SkipSpacesAppend | MWUtil.py:99 | the leading spaces of `a + b` are those of `a`, and those of `b` only when `a` is all spaces |
| Inputs.CollapseAppend | MWUtil.py:99 | collapsing works piece by piece: collapsing `a + b` gives the collapsed `a` then the collapsed `b`, unless the cut falls inside a run of spaces |
| Inputs.CollapseLeadingRun | MWUtil.py:99 | a leading run of any number of spaces becomes one space |
| Inputs.CollapseRun | MWUtil.py:99 | a run of any number of spaces between two words becomes exactly one space, and the words are collapsed on their own |
| Inputs.StudyIds | MWUtil.py:99-101 | the study IDs of an input line: at least one, none containing a space |
| Inputs.StudyIdsOfWord | MWUtil.py:99-101 | a word without spaces is one study ID |
| Inputs.StudyIdsAtRun | MWUtil.py:99-101 | a run of spaces of any length between two pieces separates their IDs: the IDs are those of the first piece followed by those of the second |
| Inputs.SplitInteriorNonEmpty | MWUtil.py:101 | splitting text without a double space on `" "` gives no empty ID except possibly the first and the last |
| Inputs.StudyIdsShape | MWUtil.py:99-101 | every study ID is free of spaces and every interior ID is non-empty; the IDs concatenated are the input without spaces, and joined by `" "` they are the collapsed input |
| Inputs.LastIndexOf | MWUtil.py:195 | the last position of a character, or -1: the character is there and nowhere after it |
| Inputs.Extension | MWUtil.py:195 | `os.path.splitext(Name)[1]`: empty, or a suffix of the name that starts with its only dot and holds no `/` |
| Inputs.ExtensionOfSimpleName | MWUtil.py:195 | `os.path.splitext` of a name without `/`, not made only of dots, with one final `.suffix` (no further dot) yields `.suffix` |
| Inputs.TabSeparatedExtension | MWUtil.py:196 | the extension pattern of the upload handler: the extension starts with `.txt`, or is `.tsv` with at most a final newline after it; case-sensitive |
| Inputs.UploadSeparator | MWUtil.py:195-199 | the separator is a tab or a comma |
| Inputs.UploadSeparatorOfSimpleName | MWUtil.py:195-199 | for every name `stem.suffix`, the separator is a tab iff the suffix starts with `txt` or is `tsv` (with at most a final newline after it): `x.txt`, `x.tsv` and `x.txt2` get tabs; `x.csv`, `x.TXT` and `x.tsvx` get commas |
| Inputs.HiddenTxtFileUsesComma | MWUtil.py:195-199 | the hidden file `.txt` has no extension, so it is read comma-separated |
| DataTable.Lookup | MWUtil.py:295-298 | `ClassName in ClassNamesMap`: a code is found iff some entry carries that name |
| DataTable.LookupAppend | MWUtil.py:295-297 | appending an entry leaves every earlier lookup as it was and adds the new name |
| DataTable.TableLines | MWUtil.py:257-261 | the lines of the text after `\r\n` and `\r` become `\n`, each split into its fields as the header (line 261) and every data line (line 283) are: at least one line, the first being the header |
| DataTable.BuildHeader | MWUtil.py:261-277 | the header loop builds exactly `HeaderLabels`, failing where `LineWords[1]` would raise |
| DataTable.BuildDataLine | MWUtil.py:283-303 | one data line: the row and the class dictionary are those of `CodeLine`, and the counter equals the dictionary size |
| DataTable.EncodeDataLines | MWUtil.py:279-303 | the data loop yields the header followed by the joined rows of `Encode`, and `Encode`'s dictionary |
| DataTable.ProcessDataTableText | MWUtil.py:251-305 | `_ProcessDataTableText` returns exactly `ParseDataTable`: failure only for a missing class label, else the joined text and the class dictionary |
| DataTable.HeaderLabels | MWUtil.py:261-277 | the rebuilt header, or a failure where `LineWords[1]` raises; its shape is stated by `DataTable.HeaderShape` |
| DataTable.HeaderShape | MWUtil.py:261-277 | the header fails iff no class label is supplied and the first line has one token; otherwise it is [sample or token 0, class or token 1, `ClassNum` iff asked, tokens 2.. unchanged and in order] |
| DataTable.TwoTokenHeaderHasNoFeatures | MWUtil.py:261-277 | a two-token header `Samples`, `Class` becomes `Samples`, `Class`, `ClassNum` |
| DataTable.Kept | MWUtil.py:285-286 | the kept lines are data lines with more than two fields, and every such line is kept |
| DataTable.KeptPositions | MWUtil.py:280-286 | the positions of the data lines with more than two fields, strictly increasing: a position is listed iff its line has more than two fields |
| DataTable.KeptInOrder | MWUtil.py:280-286 | the kept lines are exactly the lines at those positions, in text order and with repeats |
| DataTable.CodeLine | MWUtil.py:288-303 | one data line's output row and the class dictionary after it; stated by `DataTable.BuildDataLine`, `DataTable.EncodeRowsCoded` and `DataTable.ClassCodesFollowFirstAppearance` |
| DataTable.EncodeLine | MWUtil.py:282-303 | one pass of the data loop: a line with two fields or fewer is skipped and changes nothing; any other line appends the row of `DataTable.CodeLine` and takes its dictionary; stated by `DataTable.EncodeRowsCoded` and `DataTable.EncodeRowsUncoded` |
| DataTable.Encode | MWUtil.py:279-303 | the data loop as a fold over the lines; its rows and dictionary are characterised by `DataTable.EncodeRowsUncoded`, `DataTable.EncodeRowsCoded` and `DataTable.ClassCodesFollowFirstAppearance` |
| DataTable.ParseDataTable | MWUtil.py:251-305 | the result of `_ProcessDataTableText` as a function of its arguments; read back by `DataTable.ParsedTextRoundTrip` |
| DataTable.EncodeRowsUncoded | MWUtil.py:282-303 | without class numbers the rows are the kept lines unchanged and the dictionary stays empty |
| DataTable.EncodeRowsCoded | MWUtil.py:280-303 | with class numbers each kept line gives one row, in order, with its label's code inserted third; the codes are 1, 2, 3, … and no label is listed twice |
| DataTable.ClassCodesFollowFirstAppearance | MWUtil.py:280-298 | the dictionary holds exactly the kept labels, and a label coded earlier first appears earlier |
| DataTable.ClassCountIsDistinctLabels | MWUtil.py:280-298 | the dictionary has one entry per distinct label of the kept lines |
| DataTable.DistinctLabelsDistinctCodes | MWUtil.py:295-297 | in such a dictionary, distinct labels have distinct codes |
| DataTable.SameCodeIffSameLabel | MWUtil.py:293-298 | two output rows carry the same code field iff their lines carry the same label |
| DataTable.JoinedTableRoundTrip | MWUtil.py:303-305 | joining fields by the separator and lines by `\n`, then splitting again, gives the table back when no field holds either |
| DataTable.HeaderClean | MWUtil.py:261-277 | a header built from clean tokens and clean new names has at least two fields, none containing the separator or a line break |
| DataTable.RowsClean | MWUtil.py:282-303 | the rows of clean lines have more than two fields, none containing the separator or a line break (codes are digits) |
| DataTable.ParsedTextRoundTrip | MWUtil.py:251-305 | re-splitting the returned text gives the new header followed by exactly the encoded rows |
| Frames.MissingInRow | MWUtil.py:398 | the NaN count of one row is at most its length, and 0 iff the row has no NaN |
| Frames.GetNumberOfMissingValue | MWUtil.py:387-398 | `isnull().sum().sum()` is 0 iff the frame has no NaN |
| Frames.MissingCountIsMultiplicity | MWUtil.py:398 | the count is the number of NaN cells among all cells |
| Frames.MissingInRowsMonotone | MWUtil.py:398 | a cell-wise change that never removes a NaN cannot lower the count |
| Frames.CompleteRowPositions | MWUtil.py:341 | the positions of the complete rows, strictly increasing: a position is listed iff its row has no NaN |
| Frames.DropIncompleteRows | MWUtil.py:341 | `dropna(axis=0)`: same columns, no NaN left; the rows are exactly the input rows at `CompleteRowPositions`, in order and with repeats |
| Frames.CompleteColumnPositions | MWUtil.py:344 | the positions of the complete columns, strictly increasing: a position is listed iff its column has no NaN |
| Frames.DropIncompleteColumns | MWUtil.py:344 | `dropna(axis=1)`: every row kept with its sample name, no NaN left; the columns are exactly those at `CompleteColumnPositions`, in order, and each row's cells are its cells in those columns |
| Frames.AtPositionsMembers | MWUtil.py:341-344 | picking the elements at given positions keeps only elements of the input and every picked one |
| Frames.FillZero | MWUtil.py:353 | `fillna(0)`: same shape and sample names; each NaN becomes 0 and every other cell is kept |
| Frames.CoerceCell | MWUtil.py:383 | `to_numeric(errors='coerce')` on one cell: never text afterwards; numbers and NaN are kept; a string becomes the number it reads as, or NaN when it does not read as one |
| Frames.CoercedFrame | MWUtil.py:369-385 | the frame the coercion leaves behind; characterised by `Frames.CoercionOnlyFromStartColumn` |
| Frames.CoercionOnlyFromStartColumn | MWUtil.py:381-385 | coercion keeps the shape, the sample names and the columns before `StartColNum`; from there on no text remains, numbers and NaN are kept, and each string becomes its number or NaN |
| Frames.CoercionIdempotent | MWUtil.py:381-385 | coercing twice is the same as coercing once |
| Frames.CoercionKeepsMissing | MWUtil.py:381-385 | coercion never lowers the NaN count |
| Frames.DataFrame.CoerceColumnValuesToNumeric | MWUtil.py:369-385 | overwriting the columns from `StartColNum` on one by one leaves exactly `CoercedFrame` of the old frame |
| MissingValues.ChooseStrategy | MWUtil.py:335-359 | the `re.match` chain over the method name; characterised by `MissingValues.ChooseStrategySound` and `MissingValues.ChooseStrategyComplete` |
| MissingValues.ChooseStrategySound | MWUtil.py:335-359 | a name selects a strategy only if it fully matches that strategy's name ignoring case (`None` also selects no action) |
| MissingValues.ChooseStrategyComplete | MWUtil.py:335-359 | conversely, every name that fully matches a recognised strategy's name ignoring case selects that strategy: no earlier pattern of the chain matches it too |
| MissingValues.ChooseStrategyOwnName | MWUtil.py:335-356 | each recognised strategy is selected by its own name |
| MissingValues.ChooseStrategyIgnoresCase | MWUtil.py:339-353 | `deleterows` and `REPLACEBYZERO` followed by a line feed are recognised |
| MissingValues.ChooseStrategyOtherNames | MWUtil.py:335-359 | `none` means no action; `Delete Rows` is an unknown method |
| MissingValues.DocumentedMedianNameIsUnknown | MWUtil.py:315-359 | the documented `ReplaceColumnMedian` is an unknown method |
| MissingValues.ApplyStrategy | MWUtil.py:338-359 | the frame after the chosen strategy's own step; stated by `MissingValues.ProcessWith` |
| MissingValues.DropLeftovers | MWUtil.py:361-365 | the leftover clean-up leaves no NaN and equals `dropna(axis=0)` |
| MissingValues.ProcessWith | MWUtil.py:335-367 | on a frame with NaN, skipping and unknown methods return it unchanged; every recognised strategy leaves no NaN; DeleteRows, DeleteColumns and ReplaceByZero are exactly `dropna(0)`, `dropna(1)` and `fillna(0)` |
| MissingValues.ProcessMissingValues | MWUtil.py:307-367 | a frame without NaN is returned unchanged whatever the method; otherwise as `ProcessWith` |
| MissingValues.FillThenDropRows | MWUtil.py:345-365 | mean, median and interpolation fills are followed by `dropna(axis=0)` |
| MissingValues.ProcessMissingValuesConverges | MWUtil.py:307-367 | applying the processing a second time with the same method changes nothing |
| MissingValues.DocumentedMedianNameKeepsFrame | MWUtil.py:315-359 | the documented median name leaves any frame unchanged |
| MissingValues.CompleteFrameKept | MWUtil.py:341-353 | on a frame without NaN, both `dropna`s and `fillna(0)` change nothing |
| MissingValues.DropRowsOfCompleteFrame | MWUtil.py:341 | `dropna(axis=0)` keeps a frame without NaN as it is |
| MissingValues.DropColumnsOfCompleteFrame | MWUtil.py:344 | `dropna(axis=1)` keeps a well-formed frame without NaN as it is |
| MissingValues.FillZeroOfCompleteFrame | MWUtil.py:353 | `fillna(0)` keeps a frame without NaN as it is |
| Store.EntryDict | MWUtil.py:228-231 | the entries to visit, wrapped or not, form a well-formed dictionary |
| Store.IsIdField | MWUtil.py:244 | a field name is `study_id` or `analysis_id` in any letter case (full match under `re.I`); its use is stated by `Store.NonIdKeys` |
| Store.NonIdKeys | MWUtil.py:244-247 | the kept field names are exactly those that are not `study_id` or `analysis_id` in any letter case; their order is stated by `Store.NonIdKeysAppend` |
| Store.NonIdKeysAppend | MWUtil.py:244-247 | the filter works piece by piece: the kept names of `a + b` are those of `a` followed by those of `b`, so field order is kept |
| Store.NonIdKeysOne | MWUtil.py:244-247 | a single field name is kept iff it is neither `study_id` nor `analysis_id` in any letter case |
| Store.AnalysisFields | MWUtil.py:244-249 | the record holds exactly the non-identifying fields, in order, each with its value |
| Store.FileRecord | MWUtil.py:238-241 | creating the study if new and filing the record keeps both levels well-formed |
| Store.FileRecordStudy | MWUtil.py:238-241 | filing a record adds only its study and changes no other study |
| Store.FileRecordFiled | MWUtil.py:238-249 | filing a record replaces that study and analysis's record and no other |
| Store.FileRecordOrder | MWUtil.py:238-241 | filing a record appends a new study and a new analysis at the end and keeps the existing order |
| Store.MergeEntries | MWUtil.py:233-249 | filing the entries one after the other keeps the store well-formed; the contents are stated by `Store.MergedStudies` and `Store.MergedAnalyses` |
| Store.MergeAnalysisData | MWUtil.py:225-249 | the merge keeps the store well-formed |
| Store.LastFor | MWUtil.py:233-241 | the last entry naming a study and analysis, with no later one naming both |
| Store.MergedStudies | MWUtil.py:233-241 | a study is in the merged store iff it was there or an entry names it; a study no entry names keeps all its analyses |
| Store.MergedAnalyses | MWUtil.py:233-249 | each study and analysis holds the record of the last entry naming both, or what it held before when no entry does |
| Store.MergeKeepsStudyOrder | MWUtil.py:238-239 | existing studies keep their order at the front; the new ones follow as `Store.MergedStudyOrder` states |
| Store.MergeKeepsAnalysisOrder | MWUtil.py:241 | analyses already filed under a study keep their order at the front |
| Store.StudyIdsOf | MWUtil.py:234 | the study IDs the entries name, one per entry, in entry order |
| Store.FirstAppearances | MWUtil.py:238-239 | the IDs not already known, each once, in the order in which they first appear: an ID is listed iff it appears and is not known, and none is listed twice |
| Store.FirstAppearancesSnoc | MWUtil.py:238-239 | one more ID is appended iff it is neither known nor seen before |
| Store.MergedStudyOrder | MWUtil.py:233-241 | the merged store lists its old studies, then the new studies in the order of the first entry naming each |
| Store.SingleStudyDocument | MWUtil.py:228-231 | a document with a top-level `study_id` is merged as one entry |
| Store.FilingInTwoSteps | MWUtil.py:238-241 | creating an empty study first and then filing under it gives `FileRecord` |
| Store.RecordOf | MWUtil.py:241-249 | the record an entry is filed as: its non-identifying fields in order with their values (`Store.AnalysisFields`) and no results yet |
| Store.MergeEntry | MWUtil.py:233-249 | one pass of the entry loop files the entry's record under its study and analysis and keeps both levels well-formed; stated by `Store.FileRecordStudy`, `Store.FileRecordFiled` and `Store.FileRecordOrder` |
| Store.StudyResultsStore.ProcessAnalysisData | MWUtil.py:225-249 | the loop leaves the store equal to `MergeAnalysisData` of the old store |
| Store.StudyResultsStore.FileEntry | MWUtil.py:234-249 | one pass files the entry's record under its study and analysis |
| Store.StudyResultsStore.RecordFields | MWUtil.py:244-249 | the field loop builds exactly `AnalysisFields` |
| Uif.Qualifies | MWUtil.py:423-438 | an analysis qualifies when it has a frame with more than three columns and, if a minimum is given, at least that many classes |
| Uif.MetaboliteNames | MWUtil.py:448-450 | `ColumnNames[3:]`: the frame's columns after the first three, or none when there are at most three |
| Uif.ClassNames | MWUtil.py:452 | the recorded class list is the dictionary's class names, one per entry, in dictionary order (names, not codes) |
| Uif.KeysWhereSound | MWUtil.py:420-447 | filtering keys keeps exactly those that pass, in key order |
| Uif.InKeyOrderSnoc | MWUtil.py:440-447 | appending the next key keeps the list in key order |
| Uif.InKeyOrderNoRepeats | MWUtil.py:442-447 | a list in key order has no repeats |
| Uif.QualifyingSound | MWUtil.py:423-447 | a study's listed analyses are exactly those that qualify, in the study's order |
| Uif.QualifyingNonEmpty | MWUtil.py:440-442 | a study has a qualifying analysis iff its list is non-empty |
| Uif.Qualifying | MWUtil.py:421-438 | the analyses of one study that pass the three `continue` guards, in the study's order; stated by `Uif.QualifyingSound` |
| Uif.StudyStep | MWUtil.py:421-452 | one study of the loop: a study without qualifying analysis leaves the data unchanged, otherwise it is appended with its qualifying analyses and their tables; stated by `Uif.StudyStepIds` and `Uif.TablesSnoc` |
| Uif.TablesSnoc | MWUtil.py:448-452 | one more analysis adds its metabolite names and class names to the study's tables |
| Uif.StudyStepIds | MWUtil.py:440-442 | a study is appended to `StudyIDs` iff it has a qualifying analysis |
| Uif.PlanStudyIds | MWUtil.py:420-442 | `StudyIDs` is the studies with a qualifying analysis, in store order |
| Uif.PlanStudiesContents | MWUtil.py:420-452 | after any number of studies, a study is listed iff it is among them and has a qualifying analysis, with exactly its qualifying analyses and their tables |
| Uif.PlanContents | MWUtil.py:400-457 | a study is listed iff one of its analyses qualifies; then an analysis is listed iff it qualifies, with `columns[3:]` as metabolite names and the class names |
| Uif.PlanOrder | MWUtil.py:420-447 | `StudyIDs` follows store order without repeats; each `AnalysisIDs` list follows the study's analysis order |
| Uif.NarrowFramesNeverOffered | MWUtil.py:428-432 | an analysis whose frame has at most three columns is never listed |
| Uif.MinClassCountAboveAll | MWUtil.py:434-438 | when every analysis has fewer classes than `MinClassCount`, no study is listed |
| Uif.WithFirstAnalysis | MWUtil.py:440-452 | registering a new study and its first analysis gives the study's entry with that one analysis |
| Uif.WithStudySnoc | MWUtil.py:447-452 | registering one more analysis extends the study's entry by it |
| Uif.PlanUif | MWUtil.py:400-457 | the planner's result as a fold over the studies; characterised by `Uif.PlanContents` and `Uif.PlanOrder` |
| Uif.SetupUifData | MWUtil.py:400-457 | the planner loop returns exactly `PlanUif` |
| Uif.AddStudy | MWUtil.py:421-452 | one pass of the study loop returns exactly `StudyStep` |

## Left out

- HTTP retrieval (`requests.get`, status checks) is not modelled: it is network I/O. The
  model starts from the JSON document or the text it would return.
- `pandas.read_csv`, `StringIO` and `bytes.decode` are not modelled: they are library
  parsing. A frame is given directly as columns plus sample-labelled rows.
- `ReplaceByColumnMean`, `ReplaceByColumnMedian` and `LinearInterpolation` are not
  modelled numerically. Their fill steps are arbitrary functions passed in (`Imputers`),
  so the proved properties hold for any fill, followed by the leftover row drop.
- `pd.to_numeric` number syntax is a parameter `parse` (text to an optional number).
- Floating-point arithmetic is not modelled; numbers are `real`.
- `SetupCSVDownloadLink`, the listing and warning functions, `print` and the display
  callbacks are left out: they only produce console or display output.
- The orchestration functions that call the modelled pieces (retrieval by study ID and
  the upload handler around the separator choice) are left out. They consist of the
  I/O above glued to the modelled functions.
- Text.Split: the separator is one character. Callers pass `"\t"` or `","`; a
  multi-character `Sep` is not modelled.
- Frames.CoercedFrame: a negative `StartColNum` (Python slicing from the end) is not
  modelled; it is a `nat`.
- Frames.DataFrame: duplicate column names are not modelled. Coercion addresses columns
  by position, which agrees with pandas only when names are unique.
- Store.IsEntry: every entry must be a JSON object holding `study_id` and
  `analysis_id` as strings (`JString`). The source raises `KeyError` when either key
  is missing and `TypeError` when an entry is not an object; it does so partway
  through the loop, after earlier entries have already been filed in place. The model
  requires well-formed entries, so it captures neither the exception nor that partial
  update. Other JSON values used as IDs are not modelled either.
- Uif.Qualifies: a `data_frame` field arriving inside the analysis JSON itself is not
  modelled. A record has a frame only through `results`, which the table step sets
  together with `class_names_to_nums`.
- Inputs.Extension: only POSIX `os.path.splitext` (with `/` as separator) is modelled.
- Warnings printed for excluded analyses, unknown methods and empty results are left
  out, along with all other `print` output.
