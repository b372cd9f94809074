# A verified model of a four-stage ETL pipeline

The modelled system is a small batch pipeline written in Java. `FileExtractor`
reads a comma-separated text file into records, where a record is a `String[]`.
`DataTransformer` trims and upper-cases every field and drops records with too
few fields. `ConsoleLoader` prints the records as a text block. `LocalDBLoader`
keeps them in an in-memory table under ids it assigns itself. `ETLRunner.main`
runs these phases in order on the file named by its first argument. It then
prints a message chosen by how many records reached the table.

The model is split into one Dafny module per Java class, plus two shared modules:

- `Wrappers`: `Option` and `Result`.
- `EtlData`: `Record` (a `seq<string>`) and `Int32Max`.
- `JavaStrings` (java_strings.dfy): the `java.lang.String` behaviour the
  pipeline depends on. This covers `trim()`, `toUpperCase()`, `split(",")` with
  Java's dropping of trailing empty strings, `String.join`, and the decimal text
  of an `int`.
- `FileExtractor` (file_extractor.dfy): the read loop of `extractFromFile` as a
  `while` loop over the file's lines, with `continue` for blank lines. A file is
  looked up in a `FileSystem` map; a path missing from the map is the
  `IOException` case. `getRecordCount` is also here. Both are specified by the
  function `Extracted` and checked against `NonBlankIndices`, the list of
  positions of the non-blank lines.
- `DataTransformer` (data_transformer.dfy): `transform` keeps Java's nested
  loops, and the inner loop fills a fresh `array<string>`. `filterByFieldCount`
  is a loop. Both methods are proved equal to the functions `Transformed` and
  `Filtered`, and the promised properties are lemmas about those functions.
  `aggregateCount` is a function.
- `ConsoleLoader` (console_loader.dfy): `load` and `loadSummary` build and
  return the list of lines they would print. `load` keeps its `count` variable,
  which starts at 1.
- `LocalDB` (local_db_loader.dfy): class `LocalDBLoader` with the fields
  `database: map<int, Record>` and `nextId: int`. Its invariant `Valid()` says
  the keys are exactly `1 .. nextId - 1`. It follows that the count is
  `nextId - 1`.
- `ETLRunner` (etl_runner.dfy): `main` as the method `Run`. It takes the
  arguments and the file system. It returns a report (usage error, extraction
  failure, or completion with the console block, the counts and the closing
  classification) and the list of steps it ran, each appended as it runs. The
  steps are extract, transform, filter, console load and store load; main
  announces filtering as part of its transform phase.

## The dead branch in the closing classification

The closing classification follows the code. `ETLRunner.java:58-66` tests
`> 100`, then `< 10`, then `== 0`. Because `< 10` comes first, a count of 0 gets
the "below 10" warning, and the "no records were loaded" branch
(`ETLRunner.java:62-63`) can never run. The message of that branch suggests a
separate status for 0 was meant, but the model does not invent one:
`Classify` models the chain as written.
The contract of `ETLRunner.Classify` and the lemma
`ETLRunner.ZeroBranchUnreachable` prove that the branch is dead, and `ETLRunner.EmptyFileRun` shows that an empty file ends with
the "below 10" warning.

## Model

| member | source | states |
|---|---|---|
| JavaStrings.Trim | transform/src/main/java/com/etl/transform/DataTransformer.java:24 | `trim()` gives a slice of its input with only chars ≤ U+0020 cut off at either end. It is empty exactly when every char is ≤ U+0020, and otherwise it starts and ends with a kept char |
| JavaStrings.TrimStart | extract/src/main/java/com/etl/extract/FileExtractor.java:29 | the forward scan of `trim()` stops at the first char above U+0020 and skips only trimmable chars |
| JavaStrings.TrimEnd | extract/src/main/java/com/etl/extract/FileExtractor.java:29 | the backward scan of `trim()` stops after the last char above U+0020 and never passes the start |
| JavaStrings.ToUpper | transform/src/main/java/com/etl/transform/DataTransformer.java:24 | `toUpperCase()` keeps the length, leaves no lower-case ASCII letter, changes only the letters `a`-`z` and moves each of them 32 code points down to its capital |
| JavaStrings.TrimIdempotent | transform/src/main/java/com/etl/transform/DataTransformer.java:24 | trimming twice is trimming once |
| JavaStrings.TrimUpperCommute | transform/src/main/java/com/etl/transform/DataTransformer.java:24 | trim-then-upper equals upper-then-trim, so the order of the two steps does not matter |
| JavaStrings.ToUpperIdempotent | transform/src/main/java/com/etl/transform/DataTransformer.java:24 | upper-casing twice is upper-casing once |
| JavaStrings.Pieces | extract/src/main/java/com/etl/extract/FileExtractor.java:32 | the comma-separated pieces of a line: at least one, and none contains a comma |
| JavaStrings.DropTrailingEmpty | extract/src/main/java/com/etl/extract/FileExtractor.java:32 | the longest prefix that does not end in an empty string; everything dropped is empty |
| JavaStrings.Split | extract/src/main/java/com/etl/extract/FileExtractor.java:32 | `split(",")` of a line without a comma is that line alone; otherwise it is the pieces between commas minus trailing empty ones: a prefix of the pieces, everything after it empty, and its last field non-empty |
| JavaStrings.JoinPieces | extract/src/main/java/com/etl/extract/FileExtractor.java:32 | joining the pieces with commas restores the line |
| JavaStrings.PiecesOfJoin | extract/src/main/java/com/etl/extract/FileExtractor.java:32 | comma-free fields joined with commas split back into the same pieces |
| JavaStrings.SplitJoinRoundTrip | extract/src/main/java/com/etl/extract/FileExtractor.java:32 | `split(",")` inverts `join(",")` for comma-free fields whose last field is non-empty when there are two or more |
| JavaStrings.SplitTrailingCommaDropped | extract/src/main/java/com/etl/extract/FileExtractor.java:32 | `"a,b,"` splits into `["a","b"]`: the trailing empty string is dropped |
| JavaStrings.SplitLoneComma | extract/src/main/java/com/etl/extract/FileExtractor.java:32 | `","` splits into no field at all |
| JavaStrings.SplitLeadingEmptyKept | extract/src/main/java/com/etl/extract/FileExtractor.java:32 | `",a"` splits into `["","a"]`: a leading empty string is kept |
| JavaStrings.SplitNoComma | extract/src/main/java/com/etl/extract/FileExtractor.java:32 | a line without a comma splits into one field, the whole line |
| JavaStrings.Join | load/src/main/java/com/etl/load/ConsoleLoader.java:24 | `String.join` of no fields is the empty string, and otherwise the result starts with the first field |
| JavaStrings.JoinLength | load/src/main/java/com/etl/load/ConsoleLoader.java:24 | `String.join` keeps every field, empty ones included, with one separator per gap |
| JavaStrings.NatToString | load/src/main/java/com/etl/load/ConsoleLoader.java:18 | the decimal text of a count is non-empty, all digits, and has a leading `0` only for 0 |
| JavaStrings.DecimalRoundTrip | load/src/main/java/com/etl/load/ConsoleLoader.java:18 | reading the decimal text back gives the number |
| FileExtractor.NonBlankIndicesExact | extract/src/main/java/com/etl/extract/FileExtractor.java:27-34 | the reference list holds every non-blank line position and only those, in increasing order |
| FileExtractor.ExtractedByLine | extract/src/main/java/com/etl/extract/FileExtractor.java:27-34 | one record per non-blank line, in line order: record i is `split(",")` of the i-th non-blank line |
| FileExtractor.ExtractedAppend | extract/src/main/java/com/etl/extract/FileExtractor.java:27-34 | extracting two runs of lines gives the records of the first run, then those of the second |
| FileExtractor.ExtractedEmptyIff | extract/src/main/java/com/etl/extract/FileExtractor.java:23-35 | nothing is extracted exactly when every line is blank, so an empty file gives nothing |
| FileExtractor.ExtractedLength | extract/src/main/java/com/etl/extract/FileExtractor.java:27-34 | never more records than lines |
| FileExtractor.ExtractedExample | extract/src/main/java/com/etl/extract/FileExtractor.java:27-34 | the lines `a,b`, empty, spaces, `c` give `[["a","b"],["c"]]` |
| FileExtractor.ExtractFromFile | extract/src/main/java/com/etl/extract/FileExtractor.java:22-44 | fails, with no records, exactly when the file cannot be opened; otherwise it returns `Extracted` of the file's lines. The result depends only on the lines, so extraction is deterministic |
| FileExtractor.GetRecordCount | extract/src/main/java/com/etl/extract/FileExtractor.java:53-55 | the same failure as extraction; otherwise the number of records, which is the number of non-blank lines |
| DataTransformer.NormalizeFieldIdempotent | transform/src/main/java/com/etl/transform/DataTransformer.java:24 | a normalised field is unchanged by normalising it again |
| DataTransformer.TransformedAt | transform/src/main/java/com/etl/transform/DataTransformer.java:18-30 | same number of records; record i has the arity of input record i; field j is `toUpper(trim(rs[i][j]))` |
| DataTransformer.TransformRecordIdempotent | transform/src/main/java/com/etl/transform/DataTransformer.java:22-25 | transforming a transformed record changes nothing |
| DataTransformer.TransformedIdempotent | transform/src/main/java/com/etl/transform/DataTransformer.java:18-30 | transforming a transformed list changes nothing |
| DataTransformer.Transform | transform/src/main/java/com/etl/transform/DataTransformer.java:18-30 | the nested loops build exactly `Transformed(records)` as a new list; the input is a value and stays unchanged |
| DataTransformer.FilteredIsSubsequence | transform/src/main/java/com/etl/transform/DataTransformer.java:39-49 | the kept records are a subsequence of the input, in their original order |
| DataTransformer.FilteredCounts | transform/src/main/java/com/etl/transform/DataTransformer.java:39-49 | a record is kept as often as it occurs exactly when it has at least `minFields` fields, and dropped otherwise |
| DataTransformer.FilteredAllWide | transform/src/main/java/com/etl/transform/DataTransformer.java:43 | every kept record has at least `minFields` fields |
| DataTransformer.FilteredNonPositive | transform/src/main/java/com/etl/transform/DataTransformer.java:43 | a bound of 0 or less keeps the list unchanged |
| DataTransformer.FilteredIdempotent | transform/src/main/java/com/etl/transform/DataTransformer.java:39-49 | filtering twice with the same bound is filtering once |
| DataTransformer.FilterByFieldCount | transform/src/main/java/com/etl/transform/DataTransformer.java:39-49 | the loop builds exactly `Filtered(records, minFields)` |
| DataTransformer.AggregateCount | transform/src/main/java/com/etl/transform/DataTransformer.java:57-59 | `aggregateCount` is the number of records, duplicates counted: the size of the records' multiset |
| DataTransformer.StageSizes | transform/src/main/java/com/etl/transform/DataTransformer.java:18-49 | `transform` keeps the number of records, `filterByFieldCount` never adds one, and keeps all of them exactly when none is too short |
| DataTransformer.AggregateCountOfStages | transform/src/main/java/com/etl/transform/DataTransformer.java:57-59 | the count is the list's size: transform keeps it, and the filter keeps it exactly when no record is too short, otherwise lowers it |
| ConsoleLoader.RecordLinesAt | load/src/main/java/com/etl/load/ConsoleLoader.java:21-25 | one line per record, and record k (from 0) is labelled `Record k+1: ` followed by its fields joined with a space, a bar and a space |
| ConsoleLoader.RenderedLayout | load/src/main/java/com/etl/load/ConsoleLoader.java:17-27 | header, `Total Records: n`, separator, the n record lines in order, footer: n + 4 lines |
| ConsoleLoader.TotalLineReadsBack | load/src/main/java/com/etl/load/ConsoleLoader.java:18 | the digits after `Total Records: ` read back as the number of records |
| ConsoleLoader.RenderedEmpty | load/src/main/java/com/etl/load/ConsoleLoader.java:17-27 | no records gives only header, `Total Records: 0`, separator and footer |
| ConsoleLoader.EmptyFieldsKept | load/src/main/java/com/etl/load/ConsoleLoader.java:24 | `["", "Empty", "First"]` renders as the label, then nothing, then the separator before `Empty`: an empty first field still has its separator after it, and a trailing empty field leaves a trailing separator |
| ConsoleLoader.Load | load/src/main/java/com/etl/load/ConsoleLoader.java:16-28 | the printing loop, its counter starting at 1 on every call, yields exactly `Rendered(records)` |
| ConsoleLoader.LoadSummary | load/src/main/java/com/etl/load/ConsoleLoader.java:35-46 | four lines: header, the record count, then either the first record's field count or, only for an empty list, `No records to summarize.`, then footer |
| ConsoleLoader.SummaryReadsBack | load/src/main/java/com/etl/load/ConsoleLoader.java:37 | the count on the summary line reads back as the number of records |
| LocalDB.ByIdCounts | load/src/main/java/com/etl/load/LocalDBLoader.java:38-40 | listing the table holds each record once for each id that stores it |
| LocalDB.LocalDBLoader.CountMatchesCounter | load/src/main/java/com/etl/load/LocalDBLoader.java:14-15 | under the invariant, the table's size is `nextId - 1` |
| LocalDB.LocalDBLoader.constructor | load/src/main/java/com/etl/load/LocalDBLoader.java:14-15 | a new table is empty, with `nextId == 1` |
| LocalDB.LocalDBLoader.Load | load/src/main/java/com/etl/load/LocalDBLoader.java:23-31 | returns the number of records; stores `records[i]` under `old(nextId) + i`; advances `nextId` by the number of records; leaves every earlier entry as it was; the size grows by the number of records; keeps the invariant |
| LocalDB.LocalDBLoader.GetAllRecords | load/src/main/java/com/etl/load/LocalDBLoader.java:38-40 | a new list as long as the table, holding each stored record once per id that stores it and nothing else; no order is promised |
| LocalDB.LocalDBLoader.GetRecord | load/src/main/java/com/etl/load/LocalDBLoader.java:48-50 | a record exactly for ids `1 .. nextId - 1`, the one stored there; absent for 0, negative ids and ids past the last |
| LocalDB.LocalDBLoader.GetRecordCount | load/src/main/java/com/etl/load/LocalDBLoader.java:57-59 | the table's size, which equals `nextId - 1` |
| LocalDB.LocalDBLoader.Clear | load/src/main/java/com/etl/load/LocalDBLoader.java:64-67 | an empty table with `nextId == 1` whatever the state before, so clearing twice is clearing once |
| LocalDB.BatchesThenClear | load/src/main/java/com/etl/load/LocalDBLoader.java:23-31 | ids continue across two loads (checked inside); after clear, clear, load the batch sits at ids 1 .. n |
| ETLRunner.ExitCode | runner/src/main/java/com/etl/runner/ETLRunner.java:21-72 | the exit status is 0 exactly for a completed run, and 1 for the usage error and for the extraction failure |
| ETLRunner.Classify | runner/src/main/java/com/etl/runner/ETLRunner.java:58-66 | the closing message: "exceeds 100" exactly above 100, "below 10" exactly below 10 (0 included), "within range" exactly from 10 to 100 |
| ETLRunner.ZeroBranchUnreachable | runner/src/main/java/com/etl/runner/ETLRunner.java:60-63 | no count is ever classified "none loaded", and a count of 0 is classified "below 10" |
| ETLRunner.PipelineLength | runner/src/main/java/com/etl/runner/ETLRunner.java:33-41 | the loaders never see more records than extraction produced, nor more than the file has lines |
| ETLRunner.PipelineDropsOnlyEmptyRecords | runner/src/main/java/com/etl/runner/ETLRunner.java:40-41 | with `minFields = 1` only zero-field records (from lines like `,`) are dropped, and order is kept |
| ETLRunner.RunPhases | runner/src/main/java/com/etl/runner/ETLRunner.java:37-66 | runs and records transform, filter(1), console load and store load in that order: the console block renders the filtered list, and the loaded count and the store's count both equal its length |
| ETLRunner.Run | runner/src/main/java/com/etl/runner/ETLRunner.java:17-73 | no argument: usage error before any phase. A file that cannot be opened: failure after extraction alone, with no loader run. Otherwise the five steps in order, with counts equal to the pipeline's length, and the classification of that count. Exit code 0 only on completion |
| ETLRunner.EmptyFileRun | runner/src/main/java/com/etl/runner/ETLRunner.java:58-63 | an empty file loads nothing, shows only the console frame, and gets the "below 10" warning |
| ETLRunner.TwoPeopleRun | runner/src/main/java/com/etl/runner/ETLRunner.java:30-61 | the two four-field lines come through upper-cased as two records and are classified "below 10" |

## Left out

- File opening and reading (`BufferedReader`, `FileReader`): a file is its list of
  lines in a map. I/O errors are one failure value, and a read that fails partway
  through a file is not modelled separately.
- All printing to `System.out` and `System.err`, and `System.exit`. The console
  block is returned as lines and the exit status as `ExitCode`. The progress
  messages of `main`, the "Loaded n records" message of `LocalDBLoader.load`, and
  the diagnostics at `FileExtractor.java:37-41` are not modelled: they change no
  data.
- JavaStrings.ToUpper (used by `DataTransformer.TransformedAt`): only ASCII `a`–`z` are upper-cased. Java's locale-sensitive
  `toUpperCase` also maps other letters, and some of them change length (`ß` to
  `SS`).
- The `String.split` argument is a regular expression in Java. This model covers
  only the one-character, non-regex-special delimiter `","` that the code uses.
- Reference aliasing of stored `String[]`: records are values, so a caller
  cannot mutate a record the store holds. The store's test suite expects such a
  mutation to show through, and this model cannot express that.
- LocalDB.LocalDBLoader.Load: requires `nextId + |records| <= Int32Max`. The
  counter never wraps around, and id `Int32Max` itself is never assigned.
- ETLRunner.Run: requires the file to have fewer than `Int32Max` lines, for the
  same reason.
- LocalDB.LocalDBLoader.GetAllRecords: the order of `HashMap.values()` is not
  stated. The method promises only size and per-value multiplicity.
- A `null` path or `null` record list (`NullPointerException`) cannot occur,
  because values in the model are never null.
- The test files are not modelled.
