/** ConsoleLoader: the text block the pipeline writes to standard output,
    returned here as its list of lines instead of being printed. */
module ConsoleLoader {
  import opened EtlData
  import opened JavaStrings

  const Header: string := "===== ETL Pipeline Output ====="
  const Separator: string := "-------------------------------"
  const Footer: string := "==============================="
  const TotalPrefix: string := "Total Records: "

  const SummaryHeader: string := "===== ETL Pipeline Summary ====="
  const SummaryFooter: string := "================================"
  const ProcessedPrefix: string := "Total Records Processed: "
  const FieldsPrefix: string := "Fields per Record: "
  const NothingToSummarize: string := "No records to summarize."

  /** The line printed for the k-th record (counting from 1): the label, then
      the fields joined with " | ". */
  function RecordLine(k: nat, rec: Record): string {
    "Record " + NatToString(k) + ": " + Join(" | ", rec)
  }

  /** The record lines for rs, numbered from 1. */
  function RecordLines(rs: seq<Record>): seq<string>
    decreases |rs|
  {
    if rs == [] then [] else RecordLines(rs[..|rs| - 1]) + [RecordLine(|rs|, rs[|rs| - 1])]
  }

  /** Everything load prints for rs. */
  function Rendered(rs: seq<Record>): seq<string> {
    [Header, TotalPrefix + NatToString(|rs|), Separator] + RecordLines(rs) + [Footer]
  }

  /** Line k of the record lines is record k's, numbered k + 1. */
  lemma {:induction false} RecordLinesAt(rs: seq<Record>)
    ensures |RecordLines(rs)| == |rs|
    ensures forall k :: 0 <= k < |rs| ==> RecordLines(rs)[k] == RecordLine(k + 1, rs[k])
    decreases |rs|
  {
    if rs != [] {
      var n := |rs| - 1;
      RecordLinesAt(rs[..n]);
      assert forall k :: 0 <= k < n ==> rs[..n][k] == rs[k];
    }
  }

  /** The layout of the block: header, total, separator, one line per record
      in order, footer. */
  lemma RenderedLayout(rs: seq<Record>)
    ensures |Rendered(rs)| == |rs| + 4
    ensures Rendered(rs)[0] == Header
    ensures Rendered(rs)[1] == TotalPrefix + NatToString(|rs|)
    ensures Rendered(rs)[2] == Separator
    ensures forall k :: 0 <= k < |rs| ==> Rendered(rs)[k + 3] == RecordLine(k + 1, rs[k])
    ensures Rendered(rs)[|rs| + 3] == Footer
  {
    RecordLinesAt(rs);
  }

  /** The number after "Total Records: " reads back as the number of records. */
  lemma TotalLineReadsBack(rs: seq<Record>)
    ensures |Rendered(rs)[1]| > |TotalPrefix|
    ensures var digits := Rendered(rs)[1][|TotalPrefix|..];
            IsDigits(digits) && DecimalValue(digits) == |rs|
  {
    RecordLinesAt(rs);
    assert Rendered(rs)[1][|TotalPrefix|..] == NatToString(|rs|);
    DecimalRoundTrip(|rs|);
  }

  /** With no records there are no record lines, only the frame. */
  lemma RenderedEmpty()
    ensures Rendered([]) == [Header, "Total Records: 0", Separator, Footer]
  {
    assert DigitChar(0) == '0';
    assert NatToString(0) == "0";
    assert TotalPrefix + "0" == "Total Records: 0";
    assert RecordLines([]) == [];
  }

  /** Join keeps empty fields: only the separators show where they are. */
  lemma EmptyFieldsKept()
    ensures RecordLine(1, ["", "Empty", "First"]) == "Record 1:  | Empty | First"
    ensures RecordLine(3, ["Empty", "Last", ""]) == "Record 3: Empty | Last | "
  {
    assert NatToString(1) == "1" && NatToString(3) == "3";
    assert ["", "Empty", "First"][1..] == ["Empty", "First"];
    assert ["Empty", "First"][1..] == ["First"];
    assert ["Empty", "Last", ""][1..] == ["Last", ""];
    assert ["Last", ""][1..] == [""];
  }

  /** ConsoleLoader.load: the counter starts at 1 on every call and labels the
      records in order. */
  method Load(records: seq<Record>) returns (lines: seq<string>)
    ensures lines == Rendered(records)
  {
    lines := [Header, TotalPrefix + NatToString(|records|), Separator];
    var count := 1;
    var printed := 0;
    while printed < |records|
      invariant 0 <= printed <= |records|
      invariant count == printed + 1
      invariant lines == [Header, TotalPrefix + NatToString(|records|), Separator]
                         + RecordLines(records[..printed])
    {
      var rec := records[printed];
      assert records[..printed + 1][..printed] == records[..printed];
      lines := lines + [RecordLine(count, rec)];
      count := count + 1;
      printed := printed + 1;
    }
    assert records[..printed] == records;
    lines := lines + [Footer];
  }

  /** ConsoleLoader.loadSummary: the record count, then the field count of the
      first record, or a notice when there is no record. */
  method LoadSummary(records: seq<Record>) returns (lines: seq<string>)
    ensures |lines| == 4 && lines[0] == SummaryHeader && lines[3] == SummaryFooter
    ensures lines[1] == ProcessedPrefix + NatToString(|records|)
    ensures records != [] ==> lines[2] == FieldsPrefix + NatToString(|records[0]|)
    ensures records == [] ==> lines[2] == NothingToSummarize
  {
    lines := [SummaryHeader, ProcessedPrefix + NatToString(|records|)];
    if records != [] {
      lines := lines + [FieldsPrefix + NatToString(|records[0]|)];
    } else {
      lines := lines + [NothingToSummarize];
    }
    lines := lines + [SummaryFooter];
  }

  /** The count on the summary's second line reads back as the number of records. */
  lemma SummaryReadsBack(n: nat)
    ensures var line := ProcessedPrefix + NatToString(n);
            IsDigits(line[|ProcessedPrefix|..]) && DecimalValue(line[|ProcessedPrefix|..]) == n
  {
    var line := ProcessedPrefix + NatToString(n);
    assert line[|ProcessedPrefix|..] == NatToString(n);
    DecimalRoundTrip(n);
  }
}
