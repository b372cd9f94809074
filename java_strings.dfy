/** The parts of java.lang.String the pipeline relies on: trim(), toUpperCase(),
    split(","), String.join, and the decimal rendering of an int in a string
    concatenation. */
module JavaStrings {

  // ---------------------------------------------------------------- trim()

  /** String.trim() removes every char whose code is at most U+0020. */
  predicate IsTrimmable(c: char) {
    c <= ' '
  }

  /** Every char is one trim() removes, so trim() leaves nothing; the extractor
      skips such lines. */
  predicate IsBlank(s: string) {
    forall k :: 0 <= k < |s| ==> IsTrimmable(s[k])
  }

  /** The first index at or after st that holds a char trim() keeps
      (|s| when there is none): trim()'s forward scan. */
  function TrimStart(s: string, st: nat): (r: nat)
    requires st <= |s|
    ensures st <= r <= |s|
    ensures forall k :: st <= k < r ==> IsTrimmable(s[k])
    ensures r < |s| ==> !IsTrimmable(s[r])
    decreases |s| - st
  {
    if st < |s| && IsTrimmable(s[st]) then TrimStart(s, st + 1) else st
  }

  /** trim()'s backward scan: lowers len while the char before it is trimmable,
      never below st. */
  function TrimEnd(s: string, st: nat, len: nat): (r: nat)
    requires st <= len <= |s|
    ensures st <= r <= len
    ensures forall k :: r <= k < len ==> IsTrimmable(s[k])
    ensures st < r ==> !IsTrimmable(s[r - 1])
    decreases len
  {
    if st < len && IsTrimmable(s[len - 1]) then TrimEnd(s, st, len - 1) else len
  }

  /** String.trim(): the slice of s left after dropping trimmable chars at both ends. */
  function Trim(s: string): (t: string)
    ensures t == [] <==> IsBlank(s)
    ensures t != [] ==> !IsTrimmable(t[0]) && !IsTrimmable(t[|t| - 1])
    ensures exists i :: 0 <= i && i + |t| <= |s| && t == s[i..i + |t|]
                        && IsBlank(s[..i]) && IsBlank(s[i + |t|..])
  {
    var st := TrimStart(s, 0);
    var len := TrimEnd(s, st, |s|);
    assert IsBlank(s[..st]) && IsBlank(s[len..]);
    assert s[st..len] == s[st..st + |s[st..len]|];
    s[st..len]
  }

  /** Trimming a trimmed string changes nothing. */
  lemma TrimIdempotent(s: string)
    ensures Trim(Trim(s)) == Trim(s)
  {
    var t := Trim(s);
    if t != [] {
      assert TrimStart(t, 0) == 0;
      assert TrimEnd(t, 0, |t|) == |t|;
      assert t[0..|t|] == t;
    }
  }

  // ---------------------------------------------------------- toUpperCase()

  /** Upper-casing of one char, for the ASCII letters a-z. */
  function UpperChar(c: char): char {
    if 'a' <= c <= 'z' then (c as int - 'a' as int + 'A' as int) as char else c
  }

  /** String.toUpperCase() on the ASCII range (see README, Left out). */
  function ToUpper(s: string): (r: string)
    ensures |r| == |s|
    ensures forall k :: 0 <= k < |r| ==> !('a' <= r[k] <= 'z')
    ensures forall k :: 0 <= k < |s| && !('a' <= s[k] <= 'z') ==> r[k] == s[k]
    ensures forall k :: 0 <= k < |s| && 'a' <= s[k] <= 'z' ==> r[k] as int == s[k] as int - 32
  {
    seq(|s|, k requires 0 <= k < |s| => UpperChar(s[k]))
  }

  lemma UpperCharKeepsTrimmable(c: char)
    ensures IsTrimmable(UpperChar(c)) <==> IsTrimmable(c)
  {
  }

  /** Upper-casing an upper-cased string changes nothing. */
  lemma ToUpperIdempotent(s: string)
    ensures ToUpper(ToUpper(s)) == ToUpper(s)
  {
    assert forall k :: 0 <= k < |s| ==> UpperChar(UpperChar(s[k])) == UpperChar(s[k]);
  }

  lemma {:induction false} TrimStartOfUpper(s: string, st: nat)
    requires st <= |s|
    ensures TrimStart(ToUpper(s), st) == TrimStart(s, st)
    decreases |s| - st
  {
    if st < |s| {
      UpperCharKeepsTrimmable(s[st]);
      if IsTrimmable(s[st]) {
        TrimStartOfUpper(s, st + 1);
      }
    }
  }

  lemma {:induction false} TrimEndOfUpper(s: string, st: nat, len: nat)
    requires st <= len <= |s|
    ensures TrimEnd(ToUpper(s), st, len) == TrimEnd(s, st, len)
    decreases len
  {
    if st < len {
      UpperCharKeepsTrimmable(s[len - 1]);
      if IsTrimmable(s[len - 1]) {
        TrimEndOfUpper(s, st, len - 1);
      }
    }
  }

  lemma UpperOfSlice(s: string, i: nat, j: nat)
    requires i <= j <= |s|
    ensures ToUpper(s)[i..j] == ToUpper(s[i..j])
  {
    var u, t := ToUpper(s), ToUpper(s[i..j]);
    forall k | 0 <= k < j - i
      ensures u[i..j][k] == t[k]
    {
      assert u[i + k] == UpperChar(s[i + k]);
    }
  }

  /** Trimming and upper-casing commute, so the order the transformer applies
      them in does not matter. */
  lemma TrimUpperCommute(s: string)
    ensures Trim(ToUpper(s)) == ToUpper(Trim(s))
  {
    var st := TrimStart(s, 0);
    TrimStartOfUpper(s, 0);
    TrimEndOfUpper(s, st, |s|);
    UpperOfSlice(s, st, TrimEnd(s, st, |s|));
  }

  // -------------------------------------------------------------- String.join

  /** String.join(sep, fields): the fields with sep between neighbours; an empty
      field still takes its place. */
  function Join(sep: string, fields: seq<string>): (r: string)
    ensures fields == [] ==> r == ""
    ensures fields != [] ==> |fields[0]| <= |r| && r[..|fields[0]|] == fields[0]
    decreases |fields|
  {
    if |fields| == 0 then ""
    else if |fields| == 1 then fields[0]
    else fields[0] + sep + Join(sep, fields[1..])
  }

  function TotalLength(fields: seq<string>): nat
    decreases |fields|
  {
    if fields == [] then 0 else |fields[0]| + TotalLength(fields[1..])
  }

  /** The joined string holds every field and one separator per gap, so no field
      is dropped, not even an empty one. */
  lemma {:induction false} JoinLength(sep: string, fields: seq<string>)
    requires |fields| >= 1
    ensures |Join(sep, fields)| == TotalLength(fields) + (|fields| - 1) * |sep|
    decreases |fields|
  {
    if |fields| > 1 {
      JoinLength(sep, fields[1..]);
    }
  }

  // ------------------------------------------------------------ split(",")

  /** Every piece between commas, the empty ones included: the pieces split(",")
      starts from before it drops trailing empty strings. */
  function Pieces(s: string): (ps: seq<string>)
    ensures |ps| >= 1
    ensures forall k :: 0 <= k < |ps| ==> ',' !in ps[k]
    decreases |s|
  {
    if s == [] then [""]
    else
      var rest := Pieces(s[1..]);
      if s[0] == ',' then [""] + rest
      else [[s[0]] + rest[0]] + rest[1..]
  }

  /** Removes the empty strings at the end of a list, as split does with a limit of 0. */
  function DropTrailingEmpty(ps: seq<string>): (r: seq<string>)
    ensures |r| <= |ps| && r == ps[..|r|]
    ensures forall k :: |r| <= k < |ps| ==> ps[k] == ""
    ensures r != [] ==> r[|r| - 1] != ""
    decreases |ps|
  {
    if ps != [] && ps[|ps| - 1] == "" then DropTrailingEmpty(ps[..|ps| - 1]) else ps
  }

  /** String.split(","): a string without a comma comes back whole, as the only
      element; otherwise the pieces between commas, trailing empty pieces dropped. */
  function Split(s: string): (r: seq<string>)
    ensures ',' !in s ==> r == [s]
    ensures ',' in s ==> |r| <= |Pieces(s)| && r == Pieces(s)[..|r|] && (r != [] ==> r[|r| - 1] != "")
    ensures ',' in s ==> forall k :: |r| <= k < |Pieces(s)| ==> Pieces(s)[k] == ""
  {
    if ',' !in s then [s] else DropTrailingEmpty(Pieces(s))
  }

  lemma PiecesNoComma(s: string)
    requires ',' !in s
    ensures Pieces(s) == [s]
    decreases |s|
  {
    if s != [] {
      PiecesNoComma(s[1..]);
      assert [s[0]] + s[1..] == s;
    }
  }

  lemma {:induction false} PiecesAfterField(a: string, rest: string)
    requires ',' !in a
    ensures Pieces(a + "," + rest) == [a] + Pieces(rest)
    decreases |a|
  {
    if a == [] {
      assert a + "," + rest == [','] + rest;
      assert ([','] + rest)[1..] == rest;
    } else {
      var s := a + "," + rest;
      assert s[0] == a[0];
      assert s[1..] == a[1..] + "," + rest;
      PiecesAfterField(a[1..], rest);
      assert [a[0]] + a[1..] == a;
    }
  }

  /** Joining the pieces with commas gives back the string they came from. */
  lemma {:induction false} JoinPieces(s: string)
    ensures Join(",", Pieces(s)) == s
    decreases |s|
  {
    if s != [] {
      var rest := Pieces(s[1..]);
      JoinPieces(s[1..]);
      if s[0] == ',' {
        assert ([""] + rest)[1..] == rest;
        assert Join(",", [""] + rest) == "" + "," + Join(",", rest);
      } else {
        var ps := [[s[0]] + rest[0]] + rest[1..];
        if |rest| == 1 {
          assert Join(",", ps) == [s[0]] + rest[0];
        } else {
          assert ps[1..] == rest[1..];
          assert Join(",", ps) == [s[0]] + rest[0] + "," + Join(",", rest[1..]);
          assert Join(",", rest) == rest[0] + "," + Join(",", rest[1..]);
        }
        assert [s[0]] + s[1..] == s;
      }
    }
  }

  /** Splitting comma-free fields joined with commas gives the fields back. */
  lemma {:induction false} PiecesOfJoin(fields: seq<string>)
    requires |fields| >= 1
    requires forall k :: 0 <= k < |fields| ==> ',' !in fields[k]
    ensures Pieces(Join(",", fields)) == fields
    decreases |fields|
  {
    if |fields| == 1 {
      PiecesNoComma(fields[0]);
    } else {
      PiecesOfJoin(fields[1..]);
      PiecesAfterField(fields[0], Join(",", fields[1..]));
      assert [fields[0]] + fields[1..] == fields;
    }
  }

  /** split(",") undoes String.join(",", ...) for a record whose fields hold no
      comma and, when there are two or more, whose last field is not empty. */
  lemma SplitJoinRoundTrip(fields: seq<string>)
    requires |fields| >= 1
    requires forall k :: 0 <= k < |fields| ==> ',' !in fields[k]
    requires |fields| >= 2 ==> fields[|fields| - 1] != ""
    ensures Split(Join(",", fields)) == fields
  {
    if |fields| >= 2 {
      PiecesOfJoin(fields);
      var j := Join(",", fields);
      assert j == fields[0] + "," + Join(",", fields[1..]);
      assert j[|fields[0]|] == ',';
    }
  }

  /** Java's documented cases: trailing empty strings go, leading ones stay,
      and a line without a comma is one field. */
  lemma SplitTrailingCommaDropped()
    ensures Split("a,b,") == ["a", "b"]
  {
    assert "a,b,"[1] == ',';
    assert ","[1..] == "" && ","[0] == ',';
    assert Pieces(",") == ["", ""];
    assert "b,"[1..] == "," && "b,"[0] == 'b';
    assert ['b'] + "" == "b" && ["", ""][1..] == [""];
    assert Pieces("b,") == ["b", ""];
    assert ",b,"[1..] == "b," && ",b,"[0] == ',';
    assert Pieces(",b,") == ["", "b", ""];
    assert "a,b,"[1..] == ",b," && "a,b,"[0] == 'a';
    assert ['a'] + "" == "a" && ["", "b", ""][1..] == ["b", ""];
    assert Pieces("a,b,") == ["a", "b", ""];
    assert ["a", "b", ""][..2] == ["a", "b"];
  }

  lemma SplitLoneComma()
    ensures Split(",") == []
  {
    assert ","[0] == ',' && ","[1..] == "";
    assert Pieces(",") == ["", ""];
    assert ["", ""][..1] == [""] && [""][..0] == [];
  }

  lemma SplitLeadingEmptyKept()
    ensures Split(",a") == ["", "a"]
  {
    assert ",a"[0] == ',' && ",a"[1..] == "a";
    PiecesNoComma("a");
  }

  lemma SplitNoComma(s: string)
    requires ',' !in s
    ensures Split(s) == [s]
  {
  }

  // ------------------------------------------------------ int to decimal text

  function DigitChar(d: nat): char
    requires d < 10
  {
    ('0' as int + d) as char
  }

  predicate IsDigits(s: string) {
    forall k :: 0 <= k < |s| ==> '0' <= s[k] <= '9'
  }

  /** The decimal text Java writes for a non-negative int in "..." + n. */
  function NatToString(n: nat): (s: string)
    ensures |s| >= 1 && IsDigits(s)
    ensures s[0] == '0' <==> n == 0
    decreases n
  {
    if n < 10 then [DigitChar(n)] else NatToString(n / 10) + [DigitChar(n % 10)]
  }

  /** Reads decimal text back as a number: the reference for NatToString. */
  function DecimalValue(s: string): nat
    requires IsDigits(s)
    decreases |s|
  {
    if s == [] then 0
    else DecimalValue(s[..|s| - 1]) * 10 + (s[|s| - 1] as int - '0' as int)
  }

  /** Reading the rendered text gives the number back. */
  lemma {:induction false} DecimalRoundTrip(n: nat)
    ensures DecimalValue(NatToString(n)) == n
    decreases n
  {
    if n >= 10 {
      DecimalRoundTrip(n / 10);
      var s := NatToString(n);
      assert s[..|s| - 1] == NatToString(n / 10);
    }
  }
}
