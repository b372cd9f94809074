/** FileExtractor: turns the lines of a text file into records, one per
    non-blank line, each the line split on commas. */
module FileExtractor {
  import opened Wrappers
  import opened EtlData
  import opened JavaStrings

  /** The files the extractor can open, each as its list of lines (the line
      terminators already removed, as BufferedReader.readLine does). A path
      that is not in the map cannot be opened. */
  type FileSystem = map<string, seq<string>>

  /** The IOException that opening or reading a file raises. */
  datatype IoError = CannotOpen(path: string)

  /** The records the read loop has collected after the given lines. */
  function Extracted(lines: seq<string>): seq<Record>
    decreases |lines|
  {
    if lines == [] then []
    else
      var last := lines[|lines| - 1];
      Extracted(lines[..|lines| - 1]) + (if IsBlank(last) then [] else [Split(last)])
  }

  /** The positions of the non-blank lines, in file order: the reference that
      Extracted is checked against. */
  function NonBlankIndices(lines: seq<string>): seq<nat>
    decreases |lines|
  {
    if lines == [] then []
    else
      var n := |lines| - 1;
      NonBlankIndices(lines[..n]) + (if IsBlank(lines[n]) then [] else [n])
  }

  /** NonBlankIndices lists every non-blank line and only those, each once,
      in increasing order. */
  lemma {:induction false} NonBlankIndicesExact(lines: seq<string>)
    ensures forall i :: 0 <= i < |NonBlankIndices(lines)| ==>
              NonBlankIndices(lines)[i] < |lines| && !IsBlank(lines[NonBlankIndices(lines)[i]])
    ensures forall i, j :: 0 <= i < j < |NonBlankIndices(lines)| ==>
              NonBlankIndices(lines)[i] < NonBlankIndices(lines)[j]
    ensures forall k :: 0 <= k < |lines| && !IsBlank(lines[k]) ==> k in NonBlankIndices(lines)
    decreases |lines|
  {
    if lines != [] {
      var n := |lines| - 1;
      var front := NonBlankIndices(lines[..n]);
      NonBlankIndicesExact(lines[..n]);
      var idx := NonBlankIndices(lines);
      var tail: seq<nat> := if IsBlank(lines[n]) then [] else [n];
      assert idx == front + tail;
      forall i | 0 <= i < |idx|
        ensures idx[i] < |lines| && !IsBlank(lines[idx[i]])
      {
        if i < |front| {
          assert idx[i] == front[i];
          assert lines[..n][front[i]] == lines[front[i]];
        }
      }
      forall k | 0 <= k < |lines| && !IsBlank(lines[k])
        ensures k in idx
      {
        if k < n {
          assert lines[..n][k] == lines[k];
          assert k in front;
        } else {
          assert idx[|idx| - 1] == k;
        }
      }
    }
  }

  /** One record per non-blank line, in line order: record i is the split of
      the i-th non-blank line. */
  lemma {:induction false} ExtractedByLine(lines: seq<string>)
    ensures |Extracted(lines)| == |NonBlankIndices(lines)|
    ensures forall i :: 0 <= i < |Extracted(lines)| ==>
              NonBlankIndices(lines)[i] < |lines| &&
              Extracted(lines)[i] == Split(lines[NonBlankIndices(lines)[i]])
    decreases |lines|
  {
    if lines != [] {
      var n := |lines| - 1;
      var init := lines[..n];
      ExtractedByLine(init);
      NonBlankIndicesExact(init);
      var e, idx := Extracted(init), NonBlankIndices(init);
      var tail: seq<Record> := if IsBlank(lines[n]) then [] else [Split(lines[n])];
      var tailIdx: seq<nat> := if IsBlank(lines[n]) then [] else [n];
      assert Extracted(lines) == e + tail;
      assert NonBlankIndices(lines) == idx + tailIdx;
      forall i | 0 <= i < |e + tail|
        ensures (idx + tailIdx)[i] < |lines| && (e + tail)[i] == Split(lines[(idx + tailIdx)[i]])
      {
        if i < |e| {
          assert init[idx[i]] == lines[idx[i]];
        }
      }
    }
  }

  /** Extraction works line by line: the records of two runs of lines are the
      records of each, one after the other. */
  lemma {:induction false} ExtractedAppend(a: seq<string>, b: seq<string>)
    ensures Extracted(a + b) == Extracted(a) + Extracted(b)
    decreases |b|
  {
    if b == [] {
      assert a + b == a;
    } else {
      var n := |b| - 1;
      assert (a + b)[..|a + b| - 1] == a + b[..n];
      ExtractedAppend(a, b[..n]);
    }
  }

  /** Nothing is extracted exactly when every line is blank, an empty file included. */
  lemma ExtractedEmptyIff(lines: seq<string>)
    ensures Extracted(lines) == [] <==> forall k :: 0 <= k < |lines| ==> IsBlank(lines[k])
  {
    ExtractedByLine(lines);
    NonBlankIndicesExact(lines);
    var idx := NonBlankIndices(lines);
    if exists k :: 0 <= k < |lines| && !IsBlank(lines[k]) {
      var k :| 0 <= k < |lines| && !IsBlank(lines[k]);
      assert k in idx;
    }
  }

  /** There are never more records than lines. */
  lemma {:induction false} ExtractedLength(lines: seq<string>)
    ensures |Extracted(lines)| <= |lines|
    decreases |lines|
  {
    if lines != [] {
      ExtractedLength(lines[..|lines| - 1]);
    }
  }

  /** The two-field, blank, whitespace-only, one-field file. */
  lemma ExtractedExample()
    ensures Extracted(["a,b", "", "  ", "c"]) == [["a", "b"], ["c"]]
  {
    var lines := ["a,b", "", "  ", "c"];
    assert "a,b"[0] == 'a' && !IsBlank("a,b");
    assert "c"[0] == 'c' && !IsBlank("c");
    assert IsBlank("") && IsBlank("  ");
    assert "a,b"[1] == ',';
    assert "a,b"[1..] == ",b" && ",b"[1..] == "b" && ",b"[0] == ',';
    PiecesNoComma("b");
    assert Pieces(",b") == ["", "b"];
    assert ['a'] + "" == "a" && ["", "b"][1..] == ["b"];
    assert Pieces("a,b") == ["a", "b"];
    assert Split("c") == ["c"];
    assert lines[..1] == ["a,b"] && ["a,b"][..0] == [];
    assert Extracted(lines[..1]) == [["a", "b"]];
    assert lines[..2][..1] == lines[..1];
    assert Extracted(lines[..2]) == [["a", "b"]];
    assert lines[..3][..2] == lines[..2];
    assert Extracted(lines[..3]) == [["a", "b"]];
    assert lines[..3] == lines[..|lines| - 1];
  }

  /** FileExtractor.extractFromFile: opens the file (failing when it cannot),
      then reads it line by line, skipping blank lines and splitting the rest. */
  method ExtractFromFile(fs: FileSystem, path: string) returns (r: Result<seq<Record>, IoError>)
    ensures r.Failure? <==> path !in fs
    ensures r.Failure? ==> r.error == CannotOpen(path)
    ensures r.Success? ==> r.value == Extracted(fs[path])
  {
    if path !in fs {
      return Failure(CannotOpen(path));
    }
    var lines := fs[path];
    var records: seq<Record> := [];
    var i := 0;
    while i < |lines|
      invariant 0 <= i <= |lines|
      invariant records == Extracted(lines[..i])
    {
      var line := lines[i];
      i := i + 1;
      assert lines[..i][..i - 1] == lines[..i - 1];
      if Trim(line) == "" {
        continue;
      }
      records := records + [Split(line)];
    }
    assert lines[..i] == lines;
    return Success(records);
  }

  /** FileExtractor.getRecordCount: the number of non-blank lines, or the same
      failure as extraction. */
  method GetRecordCount(fs: FileSystem, path: string) returns (r: Result<nat, IoError>)
    ensures r.Failure? <==> path !in fs
    ensures r.Failure? ==> r.error == CannotOpen(path)
    ensures r.Success? ==> r.value == |Extracted(fs[path])| == |NonBlankIndices(fs[path])|
  {
    var records := ExtractFromFile(fs, path);
    match records {
      case Failure(e) => r := Failure(e);
      case Success(rs) =>
        ExtractedByLine(fs[path]);
        r := Success(|rs|);
    }
  }
}
