/** ETLRunner: runs extract, transform, filter, console load and store load in
    turn on the file named by the first argument, then classifies how many
    records reached the store. */
module ETLRunner {
  import opened Wrappers
  import opened EtlData
  import opened JavaStrings
  import opened FileExtractor
  import opened DataTransformer
  import ConsoleLoader
  import opened LocalDB

  /** The steps main runs, in order. Main announces four phases; filtering runs
      inside its "Phase 2: TRANSFORM" and is a step of its own here. */
  datatype Phase = Extract | Transform | Filter | LoadConsole | LoadStore

  /** Which of main's closing messages it prints. */
  datatype Status =
    | ExceedsHundred   // "Warning: Loaded record count exceeds 100!"
    | BelowTen         // "Warning: Loaded record count is below 10!"
    | NoneLoaded       // "Error: No records were loaded into the database!"
    | WithinRange      // "Loaded record count is within the expected range."

  /** How a run ends. */
  datatype RunReport =
    | UsageError                        // no argument: usage text, exit 1
    | ExtractionFailed(error: IoError)  // the IOException handler: exit 1
    | Completed(console: seq<string>, loadedCount: int, storedCount: int, status: Status)

  /** The process exit status: System.exit(1) on both error paths, 0 when main returns. */
  function ExitCode(r: RunReport): (code: int)
    ensures code == 0 <==> r.Completed?
    ensures code == 1 <==> r.UsageError? || r.ExtractionFailed?
  {
    if r.Completed? then 0 else 1
  }

  /** The if / else-if chain on loadedCount, tests in the order main makes them. */
  function Classify(loadedCount: int): (s: Status)
    ensures s == ExceedsHundred <==> loadedCount > 100
    ensures s == BelowTen <==> loadedCount < 10
    ensures s == WithinRange <==> 10 <= loadedCount <= 100
  {
    if loadedCount > 100 then ExceedsHundred
    else if loadedCount < 10 then BelowTen
    else if loadedCount == 0 then NoneLoaded
    else WithinRange
  }

  /** The third branch of the chain is dead: no count is classified as "none
      loaded", and a count of 0 gets the "below 10" warning instead. */
  lemma ZeroBranchUnreachable()
    ensures forall n :: Classify(n) != NoneLoaded
    ensures Classify(0) == BelowTen
  {
  }

  /** The records that reach both loaders. */
  function Pipeline(lines: seq<string>): seq<Record> {
    Filtered(Transformed(Extracted(lines)), 1)
  }

  /** The loaders see one record per non-blank line that has at least one
      field, never more records than lines. */
  lemma PipelineLength(lines: seq<string>)
    ensures |Pipeline(lines)| <= |Extracted(lines)| <= |lines|
  {
    ExtractedLength(lines);
    StageSizes(Extracted(lines), 1);
    StageSizes(Transformed(Extracted(lines)), 1);
  }

  /** Only the zero-field records extraction makes (from lines like ",") are
      filtered out, and what passes is normalised. */
  lemma PipelineDropsOnlyEmptyRecords(lines: seq<string>)
    ensures forall x :: multiset(Pipeline(lines))[x] ==
              if |x| >= 1 then multiset(Transformed(Extracted(lines)))[x] else 0
    ensures IsSubsequence(Pipeline(lines), Transformed(Extracted(lines)))
  {
    FilteredCounts(Transformed(Extracted(lines)), 1);
    FilteredIsSubsequence(Transformed(Extracted(lines)), 1);
  }

  /** The steps main runs once extraction has succeeded, each recorded in
      steps as it is run. */
  method RunPhases(rawData: seq<Record>) returns (report: RunReport, steps: seq<Phase>)
    requires |rawData| < Int32Max
    ensures var loaded := Filtered(Transformed(rawData), 1);
            report == Completed(ConsoleLoader.Rendered(loaded), |loaded|, |loaded|, Classify(|loaded|))
    ensures steps == [Transform, Filter, LoadConsole, LoadStore]
  {
    var transformedData := DataTransformer.Transform(rawData);
    steps := [Transform];
    var filteredData := FilterByFieldCount(transformedData, 1);
    steps := steps + [Filter];
    var console := ConsoleLoader.Load(filteredData);
    steps := steps + [LoadConsole];
    StageSizes(rawData, 1);
    StageSizes(transformedData, 1);
    var dbLoader := new LocalDBLoader();
    var loadedCount := dbLoader.Load(filteredData);
    var storedCount := dbLoader.GetRecordCount();
    steps := steps + [LoadStore];
    report := Completed(console, loadedCount, storedCount, Classify(loadedCount));
  }

  /** ETLRunner.main, with the file system as a parameter and the messages it
      prints replaced by the report and the list of phases it entered. */
  method Run(args: seq<string>, fs: FileSystem) returns (report: RunReport, phases: seq<Phase>)
    requires |args| >= 1 && args[0] in fs ==> |fs[args[0]]| < Int32Max
    ensures |args| == 0 ==> report == UsageError && phases == []
    ensures |args| >= 1 && args[0] !in fs ==>
              report == ExtractionFailed(CannotOpen(args[0])) && phases == [Extract]
    ensures |args| >= 1 && args[0] in fs ==>
              var loaded := Pipeline(fs[args[0]]);
              && report == Completed(ConsoleLoader.Rendered(loaded), |loaded|, |loaded|, Classify(|loaded|))
              && phases == [Extract, Transform, Filter, LoadConsole, LoadStore]
    ensures ExitCode(report) == 0 <==> |args| >= 1 && args[0] in fs
  {
    if |args| < 1 {
      return UsageError, [];
    }
    var filePath := args[0];
    var extracted := ExtractFromFile(fs, filePath);
    phases := [Extract];
    if extracted.Failure? {
      return ExtractionFailed(extracted.error), phases;
    }
    ExtractedLength(fs[filePath]);
    var steps;
    report, steps := RunPhases(extracted.value);
    phases := phases + steps;
  }

  /** A file with no lines: nothing reaches the loaders, the console shows only
      its frame, and main prints the "below 10" warning, not the "none loaded" error. */
  lemma EmptyFileRun()
    ensures Pipeline([]) == []
    ensures ConsoleLoader.Rendered(Pipeline([])) ==
              [ConsoleLoader.Header, "Total Records: 0", ConsoleLoader.Separator, ConsoleLoader.Footer]
    ensures Classify(|Pipeline([])|) == BelowTen
  {
    ConsoleLoader.RenderedEmpty();
  }

  /** Two four-field lines: both survive, upper-cased, as records 1 and 2. */
  lemma TwoPeopleRun()
    ensures Pipeline(["John,Doe,30,Engineer", "Jane,Smith,25,Designer"]) ==
              [["JOHN", "DOE", "30", "ENGINEER"], ["JANE", "SMITH", "25", "DESIGNER"]]
    ensures Classify(|Pipeline(["John,Doe,30,Engineer", "Jane,Smith,25,Designer"])|) == BelowTen
  {
    TwoPeopleExtracted();
    TwoPeopleTransformed();
    BothKept(["JOHN", "DOE", "30", "ENGINEER"], ["JANE", "SMITH", "25", "DESIGNER"], 1);
  }

  lemma BothKept(a: Record, b: Record, minFields: int)
    requires |a| >= minFields && |b| >= minFields
    ensures Filtered([a, b], minFields) == [a, b]
  {
    assert [a, b][..1] == [a] && [a][..0] == [];
    assert Filtered([a], minFields) == [a];
  }

  lemma TwoPeopleExtracted()
    ensures Extracted(["John,Doe,30,Engineer", "Jane,Smith,25,Designer"]) ==
              [["John", "Doe", "30", "Engineer"], ["Jane", "Smith", "25", "Designer"]]
  {
    JohnSplit();
    JaneSplit();
    TwoLinesExtracted("John,Doe,30,Engineer", "Jane,Smith,25,Designer");
  }

  lemma JohnSplit()
    ensures Split("John,Doe,30,Engineer") == ["John", "Doe", "30", "Engineer"]
  {
    assert "John,Doe,30,Engineer" == "John" + "," + "Doe" + "," + "30" + "," + "Engineer";
    SplitOfJoin(["John", "Doe", "30", "Engineer"]);
  }

  lemma JaneSplit()
    ensures Split("Jane,Smith,25,Designer") == ["Jane", "Smith", "25", "Designer"]
  {
    assert "Jane,Smith,25,Designer" == "Jane" + "," + "Smith" + "," + "25" + "," + "Designer";
    SplitOfJoin(["Jane", "Smith", "25", "Designer"]);
  }

  lemma TwoLinesExtracted(a: string, b: string)
    requires |a| > 0 && !IsTrimmable(a[0]) && |b| > 0 && !IsTrimmable(b[0])
    ensures Extracted([a, b]) == [Split(a), Split(b)]
  {
    assert !IsBlank(a) && !IsBlank(b);
    assert [a, b][..1] == [a] && [a][..0] == [];
    assert Extracted([a]) == [Split(a)];
  }

  lemma TwoPeopleTransformed()
    ensures Transformed([["John", "Doe", "30", "Engineer"], ["Jane", "Smith", "25", "Designer"]]) ==
              [["JOHN", "DOE", "30", "ENGINEER"], ["JANE", "SMITH", "25", "DESIGNER"]]
  {
    var john := ["John", "Doe", "30", "Engineer"];
    var jane := ["Jane", "Smith", "25", "Designer"];
    NormalizedRecord(john, ["JOHN", "DOE", "30", "ENGINEER"]);
    NormalizedRecord(jane, ["JANE", "SMITH", "25", "DESIGNER"]);
    assert [john, jane][..1] == [john] && [john][..0] == [];
  }

  lemma SplitOfJoin(fields: seq<string>)
    requires |fields| == 4
    requires forall k :: 0 <= k < 4 ==> ',' !in fields[k]
    requires fields[3] != ""
    ensures Split(fields[0] + "," + fields[1] + "," + fields[2] + "," + fields[3]) == fields
  {
    SplitJoinRoundTrip(fields);
    assert fields[1..][1..] == fields[2..] && fields[2..][1..] == [fields[3]];
    assert Join(",", fields[2..]) == fields[2] + "," + fields[3];
    assert Join(",", fields[1..]) == fields[1] + "," + (fields[2] + "," + fields[3]);
    assert Join(",", fields) == fields[0] + "," + (fields[1] + "," + (fields[2] + "," + fields[3]));
    assert fields[0] + "," + (fields[1] + "," + (fields[2] + "," + fields[3]))
        == fields[0] + "," + fields[1] + "," + fields[2] + "," + fields[3];
  }

  /** Each field of these records is trimmed (a no-op here) and upper-cased. */
  lemma NormalizedRecord(rec: Record, upper: Record)
    requires |rec| == |upper|
    requires forall j :: 0 <= j < |rec| ==> IsWordOrDigits(rec[j]) && upper[j] == ToUpper(rec[j])
    ensures TransformRecord(rec) == upper
  {
    forall j | 0 <= j < |rec|
      ensures NormalizeField(rec[j]) == upper[j]
    {
      TrimOfWord(rec[j]);
    }
  }

  predicate IsWordOrDigits(s: string) {
    s != [] && forall k :: 0 <= k < |s| ==> 'a' <= s[k] <= 'z' || 'A' <= s[k] <= 'Z' || '0' <= s[k] <= '9'
  }

  lemma TrimOfWord(s: string)
    requires IsWordOrDigits(s)
    ensures Trim(s) == s
  {
    assert TrimStart(s, 0) == 0;
    assert TrimEnd(s, 0, |s|) == |s|;
    assert s[0..|s|] == s;
  }
}
