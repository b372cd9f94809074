/** DataTransformer: normalises every field of every record, filters records
    by their number of fields, and counts records. */
module DataTransformer {
  import opened EtlData
  import opened JavaStrings

  /** What transform does to one field: trim(), then toUpperCase(). */
  function NormalizeField(field: string): string {
    ToUpper(Trim(field))
  }

  /** A normalised field is left as it is by a second normalisation. */
  lemma NormalizeFieldIdempotent(field: string)
    ensures NormalizeField(NormalizeField(field)) == NormalizeField(field)
  {
    var t := Trim(field);
    TrimUpperCommute(t);
    TrimIdempotent(field);
    ToUpperIdempotent(t);
  }

  /** The new String[] transform builds for one record. */
  function TransformRecord(rec: Record): Record {
    seq(|rec|, j requires 0 <= j < |rec| => NormalizeField(rec[j]))
  }

  /** The list transform has built after the given records. */
  function Transformed(rs: seq<Record>): seq<Record>
    decreases |rs|
  {
    if rs == [] then [] else Transformed(rs[..|rs| - 1]) + [TransformRecord(rs[|rs| - 1])]
  }

  /** One output record per input record, in the same place, with the same
      number of fields, field j being the trimmed, upper-cased input field j. */
  lemma {:induction false} TransformedAt(rs: seq<Record>)
    ensures |Transformed(rs)| == |rs|
    ensures forall i :: 0 <= i < |rs| ==> |Transformed(rs)[i]| == |rs[i]|
    ensures forall i, j :: 0 <= i < |rs| && 0 <= j < |rs[i]| ==>
              Transformed(rs)[i][j] == ToUpper(Trim(rs[i][j]))
    decreases |rs|
  {
    if rs != [] {
      var n := |rs| - 1;
      TransformedAt(rs[..n]);
      assert forall i :: 0 <= i < n ==> rs[..n][i] == rs[i];
      assert forall i :: 0 <= i < n ==> Transformed(rs)[i] == Transformed(rs[..n])[i];
    }
  }

  lemma TransformRecordIdempotent(rec: Record)
    ensures TransformRecord(TransformRecord(rec)) == TransformRecord(rec)
  {
    forall j | 0 <= j < |rec| {
      NormalizeFieldIdempotent(rec[j]);
    }
  }

  /** Transforming twice is the same as transforming once. */
  lemma {:induction false} TransformedIdempotent(rs: seq<Record>)
    ensures Transformed(Transformed(rs)) == Transformed(rs)
    decreases |rs|
  {
    if rs != [] {
      var n := |rs| - 1;
      TransformedIdempotent(rs[..n]);
      TransformRecordIdempotent(rs[n]);
      var t := Transformed(rs);
      assert t[..|t| - 1] == Transformed(rs[..n]);
    }
  }

  /** DataTransformer.transform: a new list of new records; the input is a value
      and so cannot be changed. */
  method Transform(records: seq<Record>) returns (transformed: seq<Record>)
    ensures transformed == Transformed(records)
  {
    transformed := [];
    for k := 0 to |records|
      invariant transformed == Transformed(records[..k])
    {
      var rec := records[k];
      var transformedRecord := new string[|rec|];
      for i := 0 to |rec|
        invariant forall j :: 0 <= j < i ==> transformedRecord[j] == NormalizeField(rec[j])
      {
        transformedRecord[i] := NormalizeField(rec[i]);
      }
      assert transformedRecord[..] == TransformRecord(rec);
      assert records[..k + 1][..k] == records[..k];
      transformed := transformed + [transformedRecord[..]];
    }
    assert records[..|records|] == records;
  }

  /** The list filterByFieldCount has built after the given records. */
  function Filtered(rs: seq<Record>, minFields: int): seq<Record>
    decreases |rs|
  {
    if rs == [] then []
    else
      var last := rs[|rs| - 1];
      Filtered(rs[..|rs| - 1], minFields) + (if |last| >= minFields then [last] else [])
  }

  /** a is b with some elements left out, the rest in their order. */
  predicate IsSubsequence<T(==)>(a: seq<T>, b: seq<T>)
    decreases |b|
  {
    if a == [] then true
    else if b == [] then false
    else if a[|a| - 1] == b[|b| - 1] then IsSubsequence(a[..|a| - 1], b[..|b| - 1])
    else IsSubsequence(a, b[..|b| - 1])
  }

  lemma {:induction false} SubsequenceExtend<T>(a: seq<T>, b: seq<T>, x: T)
    requires IsSubsequence(a, b)
    ensures IsSubsequence(a, b + [x])
    decreases |b|, 1
  {
    var bx := b + [x];
    assert bx[..|bx| - 1] == b;
    if a != [] && a[|a| - 1] == x {
      // match x against a's last element, then a's front against b
      SubsequenceFront(a, b);
    }
  }

  lemma {:induction false} SubsequenceFront<T>(a: seq<T>, b: seq<T>)
    requires a != [] && IsSubsequence(a, b)
    ensures IsSubsequence(a[..|a| - 1], b)
    decreases |b|, 0
  {
    var b' := b[..|b| - 1];
    assert b' + [b[|b| - 1]] == b;
    if a[|a| - 1] != b[|b| - 1] {
      SubsequenceFront(a, b');
    }
    SubsequenceExtend(a[..|a| - 1], b', b[|b| - 1]);
  }

  /** The filter keeps the records it keeps in their original order. */
  lemma {:induction false} FilteredIsSubsequence(rs: seq<Record>, minFields: int)
    ensures IsSubsequence(Filtered(rs, minFields), rs)
    decreases |rs|
  {
    if rs != [] {
      var n := |rs| - 1;
      var last := rs[n];
      var front := Filtered(rs[..n], minFields);
      FilteredIsSubsequence(rs[..n], minFields);
      assert rs[..n] + [last] == rs;
      if |last| >= minFields {
        assert (front + [last])[..|front|] == front;
      } else {
        assert front + [] == front;
        SubsequenceExtend(front, rs[..n], last);
      }
    }
  }

  /** A record is kept, as often as it occurs, exactly when it has at least
      minFields fields; every other record is dropped. */
  lemma {:induction false} FilteredCounts(rs: seq<Record>, minFields: int)
    ensures forall x :: multiset(Filtered(rs, minFields))[x] ==
              if |x| >= minFields then multiset(rs)[x] else 0
    decreases |rs|
  {
    if rs != [] {
      var n := |rs| - 1;
      FilteredCounts(rs[..n], minFields);
      assert rs[..n] + [rs[n]] == rs;
    }
  }

  /** Every kept record has at least minFields fields. */
  lemma FilteredAllWide(rs: seq<Record>, minFields: int)
    ensures forall x :: x in Filtered(rs, minFields) ==> |x| >= minFields
  {
    FilteredCounts(rs, minFields);
  }

  /** A bound of zero or less keeps everything. */
  lemma {:induction false} FilteredNonPositive(rs: seq<Record>, minFields: int)
    requires minFields <= 0
    ensures Filtered(rs, minFields) == rs
    decreases |rs|
  {
    if rs != [] {
      FilteredNonPositive(rs[..|rs| - 1], minFields);
      assert rs[..|rs| - 1] + [rs[|rs| - 1]] == rs;
    }
  }

  /** Filtering a second time with the same bound removes nothing more. */
  lemma {:induction false} FilteredIdempotent(rs: seq<Record>, minFields: int)
    ensures Filtered(Filtered(rs, minFields), minFields) == Filtered(rs, minFields)
    decreases |rs|
  {
    if rs != [] {
      var n := |rs| - 1;
      var front := Filtered(rs[..n], minFields);
      FilteredIdempotent(rs[..n], minFields);
      if |rs[n]| >= minFields {
        var f := front + [rs[n]];
        assert f[..|f| - 1] == front;
      } else {
        assert front + [] == front;
      }
    }
  }

  /** DataTransformer.filterByFieldCount: a new list of the records with at
      least minFields fields, in their order. */
  method FilterByFieldCount(records: seq<Record>, minFields: int) returns (filtered: seq<Record>)
    ensures filtered == Filtered(records, minFields)
  {
    filtered := [];
    for k := 0 to |records|
      invariant filtered == Filtered(records[..k], minFields)
    {
      assert records[..k + 1][..k] == records[..k];
      if |records[k]| >= minFields {
        filtered := filtered + [records[k]];
      }
    }
    assert records[..|records|] == records;
  }

  /** DataTransformer.aggregateCount. */
  function AggregateCount(records: seq<Record>): (n: nat)
    ensures n == |multiset(records)|
  {
    |records|
  }

  /** The sizes through the stages: transform keeps the size, the filter can
      only lower it, and lowers it exactly when some record is too short. */
  lemma {:induction false} StageSizes(rs: seq<Record>, minFields: int)
    ensures |Transformed(rs)| == |rs|
    ensures |Filtered(rs, minFields)| <= |rs|
    ensures |Filtered(rs, minFields)| == |rs| <==> forall i :: 0 <= i < |rs| ==> |rs[i]| >= minFields
    decreases |rs|
  {
    TransformedAt(rs);
    if rs != [] {
      var n := |rs| - 1;
      StageSizes(rs[..n], minFields);
      assert forall i :: 0 <= i < n ==> rs[..n][i] == rs[i];
    }
  }

  /** The count through the stages: transform keeps it, the filter can only
      lower it, and lowers it by exactly the records that are too short. */
  lemma AggregateCountOfStages(rs: seq<Record>, minFields: int)
    ensures AggregateCount(Transformed(rs)) == AggregateCount(rs)
    ensures AggregateCount(Filtered(rs, minFields)) <= AggregateCount(rs)
    ensures AggregateCount(Filtered(rs, minFields)) == AggregateCount(rs) <==>
              forall i :: 0 <= i < |rs| ==> |rs[i]| >= minFields
  {
    StageSizes(rs, minFields);
  }
}
