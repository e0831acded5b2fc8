/** The beam splitter run by hand on a fifteen-column field whose answers
    are the ones the tests of src/bin/07.rs expect: 21 splits, 40 timelines. */
module BeamSplitterExample {
  import opened Text
  import opened BeamSplitter
  import opened Arith

  const ExampleField: seq<string> := [
    ".......S.......",
    "...............",
    ".......^.......",
    "...............",
    "......^.^......",
    "...............",
    ".....^.^.^.....",
    "...............",
    "....^.^...^....",
    "...............",
    "...^.^...^.^...",
    "...............",
    "..^...^.....^..",
    "...............",
    ".^.^.^.^.^...^.",
    "..............."
  ]

  /** The first `k` rows, run from `b`, stay routable and end in `v` after `s` splits. */
  predicate Reaches(b: seq<nat>, rows: seq<string>, k: nat, v: seq<nat>, s: nat)
  {
    k <= |rows| && Flows(b, rows[..k]) && After(b, rows[..k]) == v && TotalSplits(b, rows[..k]) == s
  }

  /** Column by column from `j`: every beam meets a splitter or empty space,
      and the next row's count is `v`. */
  predicate RowChecks(b: seq<nat>, line: string, v: seq<nat>, j: nat)
    requires |v| == |b| && j <= |b|
    decreases |b| - j
  {
    j == |b|
    || ((b[j] > 0 ==> IsSplitter(line, j) || IsPass(line, j))
        && Arriving(b, line, j, |b|) == v[j]
        && RowChecks(b, line, v, j + 1))
  }

  lemma {:induction false} RowChecked(b: seq<nat>, line: string, v: seq<nat>, j: nat)
    requires |v| == |b| && j <= |b| && RowChecks(b, line, v, j)
    ensures forall c :: j <= c < |b| ==> (b[c] > 0 ==> IsSplitter(line, c) || IsPass(line, c))
    ensures forall c :: j <= c < |b| ==> Arriving(b, line, c, |b|) == v[c]
    decreases |b| - j
  {
    if j < |b| {
      RowChecked(b, line, v, j + 1);
    }
  }

  lemma Checked(b: seq<nat>, line: string, v: seq<nat>)
    requires |v| == |b| && RowChecks(b, line, v, 0)
    ensures Routable(b, line) && Next(b, line) == v
  {
    RowChecked(b, line, v, 0);
  }

  lemma RunComplete(b: seq<nat>, rows: seq<string>, v: seq<nat>, s: nat)
    requires Reaches(b, rows, |rows|, v, s)
    ensures Flows(b, rows) && After(b, rows) == v && TotalSplits(b, rows) == s
  {
    assert rows[..|rows|] == rows;
  }

  /** Extends a run prefix by one line. */
  lemma {:induction false} ExtendRun(b: seq<nat>, rows: seq<string>, k: nat, v: seq<nat>, s: nat, v': seq<nat>, s': nat)
    requires k < |rows| && |v| == |b| && Reaches(b, rows, k, v, s)
    requires Routable(v, rows[k]) && Next(v, rows[k]) == v' && s' == s + SplitsIn(v, rows[k], |b|)
    ensures Reaches(b, rows, k + 1, v', s')
  {
    assert rows[..k + 1][..k] == rows[..k];
  }

  lemma Line0Next()
    ensures var b := [0, 0, 0, 0, 0, 0, 0, 1, 0, 0, 0, 0, 0, 0, 0];
      Routable(b, "...............") && Next(b, "...............") == b && SplitsIn(b, "...............", 15) == 0
  {
    NoSplitterRowIsIdentity([0, 0, 0, 0, 0, 0, 0, 1, 0, 0, 0, 0, 0, 0, 0], "...............");
  }

  lemma Line1Next()
    ensures var b := [0, 0, 0, 0, 0, 0, 0, 1, 0, 0, 0, 0, 0, 0, 0];
      Routable(b, ".......^.......") && Next(b, ".......^.......") == [0, 0, 0, 0, 0, 0, 1, 0, 1, 0, 0, 0, 0, 0, 0]
  {
    Checked([0, 0, 0, 0, 0, 0, 0, 1, 0, 0, 0, 0, 0, 0, 0], ".......^.......", [0, 0, 0, 0, 0, 0, 1, 0, 1, 0, 0, 0, 0, 0, 0]);
  }

  lemma Line1Splits()
    ensures SplitsIn([0, 0, 0, 0, 0, 0, 0, 1, 0, 0, 0, 0, 0, 0, 0], ".......^.......", 15) == 1
  {
    var b := [0, 0, 0, 0, 0, 0, 0, 1, 0, 0, 0, 0, 0, 0, 0];
    var line := ".......^.......";
    assert SplitsIn(b, line, 1) == 0 && SplitsIn(b, line, 2) == 0 && SplitsIn(b, line, 3) == 0 && SplitsIn(b, line, 4) == 0 && SplitsIn(b, line, 5) == 0;
    assert SplitsIn(b, line, 6) == 0 && SplitsIn(b, line, 7) == 0 && SplitsIn(b, line, 8) == 1 && SplitsIn(b, line, 9) == 1 && SplitsIn(b, line, 10) == 1;
    assert SplitsIn(b, line, 11) == 1 && SplitsIn(b, line, 12) == 1 && SplitsIn(b, line, 13) == 1 && SplitsIn(b, line, 14) == 1 && SplitsIn(b, line, 15) == 1;
  }

  lemma Line2Next()
    ensures var b := [0, 0, 0, 0, 0, 0, 1, 0, 1, 0, 0, 0, 0, 0, 0];
      Routable(b, "...............") && Next(b, "...............") == b && SplitsIn(b, "...............", 15) == 0
  {
    NoSplitterRowIsIdentity([0, 0, 0, 0, 0, 0, 1, 0, 1, 0, 0, 0, 0, 0, 0], "...............");
  }

  lemma Line3Next()
    ensures var b := [0, 0, 0, 0, 0, 0, 1, 0, 1, 0, 0, 0, 0, 0, 0];
      Routable(b, "......^.^......") && Next(b, "......^.^......") == [0, 0, 0, 0, 0, 1, 0, 2, 0, 1, 0, 0, 0, 0, 0]
  {
    Checked([0, 0, 0, 0, 0, 0, 1, 0, 1, 0, 0, 0, 0, 0, 0], "......^.^......", [0, 0, 0, 0, 0, 1, 0, 2, 0, 1, 0, 0, 0, 0, 0]);
  }

  lemma Line3Splits()
    ensures SplitsIn([0, 0, 0, 0, 0, 0, 1, 0, 1, 0, 0, 0, 0, 0, 0], "......^.^......", 15) == 2
  {
    var b := [0, 0, 0, 0, 0, 0, 1, 0, 1, 0, 0, 0, 0, 0, 0];
    var line := "......^.^......";
    assert SplitsIn(b, line, 1) == 0 && SplitsIn(b, line, 2) == 0 && SplitsIn(b, line, 3) == 0 && SplitsIn(b, line, 4) == 0 && SplitsIn(b, line, 5) == 0;
    assert SplitsIn(b, line, 6) == 0 && SplitsIn(b, line, 7) == 1 && SplitsIn(b, line, 8) == 1 && SplitsIn(b, line, 9) == 2 && SplitsIn(b, line, 10) == 2;
    assert SplitsIn(b, line, 11) == 2 && SplitsIn(b, line, 12) == 2 && SplitsIn(b, line, 13) == 2 && SplitsIn(b, line, 14) == 2 && SplitsIn(b, line, 15) == 2;
  }

  lemma Line4Next()
    ensures var b := [0, 0, 0, 0, 0, 1, 0, 2, 0, 1, 0, 0, 0, 0, 0];
      Routable(b, "...............") && Next(b, "...............") == b && SplitsIn(b, "...............", 15) == 0
  {
    NoSplitterRowIsIdentity([0, 0, 0, 0, 0, 1, 0, 2, 0, 1, 0, 0, 0, 0, 0], "...............");
  }

  lemma Line5Next()
    ensures var b := [0, 0, 0, 0, 0, 1, 0, 2, 0, 1, 0, 0, 0, 0, 0];
      Routable(b, ".....^.^.^.....") && Next(b, ".....^.^.^.....") == [0, 0, 0, 0, 1, 0, 3, 0, 3, 0, 1, 0, 0, 0, 0]
  {
    Checked([0, 0, 0, 0, 0, 1, 0, 2, 0, 1, 0, 0, 0, 0, 0], ".....^.^.^.....", [0, 0, 0, 0, 1, 0, 3, 0, 3, 0, 1, 0, 0, 0, 0]);
  }

  lemma Line5Splits()
    ensures SplitsIn([0, 0, 0, 0, 0, 1, 0, 2, 0, 1, 0, 0, 0, 0, 0], ".....^.^.^.....", 15) == 3
  {
    var b := [0, 0, 0, 0, 0, 1, 0, 2, 0, 1, 0, 0, 0, 0, 0];
    var line := ".....^.^.^.....";
    assert SplitsIn(b, line, 1) == 0 && SplitsIn(b, line, 2) == 0 && SplitsIn(b, line, 3) == 0 && SplitsIn(b, line, 4) == 0 && SplitsIn(b, line, 5) == 0;
    assert SplitsIn(b, line, 6) == 1 && SplitsIn(b, line, 7) == 1 && SplitsIn(b, line, 8) == 2 && SplitsIn(b, line, 9) == 2 && SplitsIn(b, line, 10) == 3;
    assert SplitsIn(b, line, 11) == 3 && SplitsIn(b, line, 12) == 3 && SplitsIn(b, line, 13) == 3 && SplitsIn(b, line, 14) == 3 && SplitsIn(b, line, 15) == 3;
  }

  lemma Line6Next()
    ensures var b := [0, 0, 0, 0, 1, 0, 3, 0, 3, 0, 1, 0, 0, 0, 0];
      Routable(b, "...............") && Next(b, "...............") == b && SplitsIn(b, "...............", 15) == 0
  {
    NoSplitterRowIsIdentity([0, 0, 0, 0, 1, 0, 3, 0, 3, 0, 1, 0, 0, 0, 0], "...............");
  }

  lemma Line7Next()
    ensures var b := [0, 0, 0, 0, 1, 0, 3, 0, 3, 0, 1, 0, 0, 0, 0];
      Routable(b, "....^.^...^....") && Next(b, "....^.^...^....") == [0, 0, 0, 1, 0, 4, 0, 3, 3, 1, 0, 1, 0, 0, 0]
  {
    Checked([0, 0, 0, 0, 1, 0, 3, 0, 3, 0, 1, 0, 0, 0, 0], "....^.^...^....", [0, 0, 0, 1, 0, 4, 0, 3, 3, 1, 0, 1, 0, 0, 0]);
  }

  lemma Line7Splits()
    ensures SplitsIn([0, 0, 0, 0, 1, 0, 3, 0, 3, 0, 1, 0, 0, 0, 0], "....^.^...^....", 15) == 3
  {
    var b := [0, 0, 0, 0, 1, 0, 3, 0, 3, 0, 1, 0, 0, 0, 0];
    var line := "....^.^...^....";
    assert SplitsIn(b, line, 1) == 0 && SplitsIn(b, line, 2) == 0 && SplitsIn(b, line, 3) == 0 && SplitsIn(b, line, 4) == 0 && SplitsIn(b, line, 5) == 1;
    assert SplitsIn(b, line, 6) == 1 && SplitsIn(b, line, 7) == 2 && SplitsIn(b, line, 8) == 2 && SplitsIn(b, line, 9) == 2 && SplitsIn(b, line, 10) == 2;
    assert SplitsIn(b, line, 11) == 3 && SplitsIn(b, line, 12) == 3 && SplitsIn(b, line, 13) == 3 && SplitsIn(b, line, 14) == 3 && SplitsIn(b, line, 15) == 3;
  }

  lemma Line8Next()
    ensures var b := [0, 0, 0, 1, 0, 4, 0, 3, 3, 1, 0, 1, 0, 0, 0];
      Routable(b, "...............") && Next(b, "...............") == b && SplitsIn(b, "...............", 15) == 0
  {
    NoSplitterRowIsIdentity([0, 0, 0, 1, 0, 4, 0, 3, 3, 1, 0, 1, 0, 0, 0], "...............");
  }

  lemma Line9Next()
    ensures var b := [0, 0, 0, 1, 0, 4, 0, 3, 3, 1, 0, 1, 0, 0, 0];
      Routable(b, "...^.^...^.^...") && Next(b, "...^.^...^.^...") == [0, 0, 1, 0, 5, 0, 4, 3, 4, 0, 2, 0, 1, 0, 0]
  {
    Checked([0, 0, 0, 1, 0, 4, 0, 3, 3, 1, 0, 1, 0, 0, 0], "...^.^...^.^...", [0, 0, 1, 0, 5, 0, 4, 3, 4, 0, 2, 0, 1, 0, 0]);
  }

  lemma Line9Splits()
    ensures SplitsIn([0, 0, 0, 1, 0, 4, 0, 3, 3, 1, 0, 1, 0, 0, 0], "...^.^...^.^...", 15) == 4
  {
    var b := [0, 0, 0, 1, 0, 4, 0, 3, 3, 1, 0, 1, 0, 0, 0];
    var line := "...^.^...^.^...";
    assert SplitsIn(b, line, 1) == 0 && SplitsIn(b, line, 2) == 0 && SplitsIn(b, line, 3) == 0 && SplitsIn(b, line, 4) == 1 && SplitsIn(b, line, 5) == 1;
    assert SplitsIn(b, line, 6) == 2 && SplitsIn(b, line, 7) == 2 && SplitsIn(b, line, 8) == 2 && SplitsIn(b, line, 9) == 2 && SplitsIn(b, line, 10) == 3;
    assert SplitsIn(b, line, 11) == 3 && SplitsIn(b, line, 12) == 4 && SplitsIn(b, line, 13) == 4 && SplitsIn(b, line, 14) == 4 && SplitsIn(b, line, 15) == 4;
  }

  lemma Line10Next()
    ensures var b := [0, 0, 1, 0, 5, 0, 4, 3, 4, 0, 2, 0, 1, 0, 0];
      Routable(b, "...............") && Next(b, "...............") == b && SplitsIn(b, "...............", 15) == 0
  {
    NoSplitterRowIsIdentity([0, 0, 1, 0, 5, 0, 4, 3, 4, 0, 2, 0, 1, 0, 0], "...............");
  }

  lemma Line11Next()
    ensures var b := [0, 0, 1, 0, 5, 0, 4, 3, 4, 0, 2, 0, 1, 0, 0];
      Routable(b, "..^...^.....^..") && Next(b, "..^...^.....^..") == [0, 1, 0, 1, 5, 4, 0, 7, 4, 0, 2, 1, 0, 1, 0]
  {
    Checked([0, 0, 1, 0, 5, 0, 4, 3, 4, 0, 2, 0, 1, 0, 0], "..^...^.....^..", [0, 1, 0, 1, 5, 4, 0, 7, 4, 0, 2, 1, 0, 1, 0]);
  }

  lemma Line11Splits()
    ensures SplitsIn([0, 0, 1, 0, 5, 0, 4, 3, 4, 0, 2, 0, 1, 0, 0], "..^...^.....^..", 15) == 3
  {
    var b := [0, 0, 1, 0, 5, 0, 4, 3, 4, 0, 2, 0, 1, 0, 0];
    var line := "..^...^.....^..";
    assert SplitsIn(b, line, 1) == 0 && SplitsIn(b, line, 2) == 0 && SplitsIn(b, line, 3) == 1 && SplitsIn(b, line, 4) == 1 && SplitsIn(b, line, 5) == 1;
    assert SplitsIn(b, line, 6) == 1 && SplitsIn(b, line, 7) == 2 && SplitsIn(b, line, 8) == 2 && SplitsIn(b, line, 9) == 2 && SplitsIn(b, line, 10) == 2;
    assert SplitsIn(b, line, 11) == 2 && SplitsIn(b, line, 12) == 2 && SplitsIn(b, line, 13) == 3 && SplitsIn(b, line, 14) == 3 && SplitsIn(b, line, 15) == 3;
  }

  lemma Line12Next()
    ensures var b := [0, 1, 0, 1, 5, 4, 0, 7, 4, 0, 2, 1, 0, 1, 0];
      Routable(b, "...............") && Next(b, "...............") == b && SplitsIn(b, "...............", 15) == 0
  {
    NoSplitterRowIsIdentity([0, 1, 0, 1, 5, 4, 0, 7, 4, 0, 2, 1, 0, 1, 0], "...............");
  }

  lemma Line13Next()
    ensures var b := [0, 1, 0, 1, 5, 4, 0, 7, 4, 0, 2, 1, 0, 1, 0];
      Routable(b, ".^.^.^.^.^...^.") && Next(b, ".^.^.^.^.^...^.") == [1, 0, 2, 0, 10, 0, 11, 0, 11, 0, 2, 1, 1, 0, 1]
  {
    Checked([0, 1, 0, 1, 5, 4, 0, 7, 4, 0, 2, 1, 0, 1, 0], ".^.^.^.^.^...^.", [1, 0, 2, 0, 10, 0, 11, 0, 11, 0, 2, 1, 1, 0, 1]);
  }

  lemma Line13Splits()
    ensures SplitsIn([0, 1, 0, 1, 5, 4, 0, 7, 4, 0, 2, 1, 0, 1, 0], ".^.^.^.^.^...^.", 15) == 5
  {
    var b := [0, 1, 0, 1, 5, 4, 0, 7, 4, 0, 2, 1, 0, 1, 0];
    var line := ".^.^.^.^.^...^.";
    assert SplitsIn(b, line, 1) == 0 && SplitsIn(b, line, 2) == 1 && SplitsIn(b, line, 3) == 1 && SplitsIn(b, line, 4) == 2 && SplitsIn(b, line, 5) == 2;
    assert SplitsIn(b, line, 6) == 3 && SplitsIn(b, line, 7) == 3 && SplitsIn(b, line, 8) == 4 && SplitsIn(b, line, 9) == 4 && SplitsIn(b, line, 10) == 4;
    assert SplitsIn(b, line, 11) == 4 && SplitsIn(b, line, 12) == 4 && SplitsIn(b, line, 13) == 4 && SplitsIn(b, line, 14) == 5 && SplitsIn(b, line, 15) == 5;
  }

  lemma Line14Next()
    ensures var b := [1, 0, 2, 0, 10, 0, 11, 0, 11, 0, 2, 1, 1, 0, 1];
      Routable(b, "...............") && Next(b, "...............") == b && SplitsIn(b, "...............", 15) == 0
  {
    NoSplitterRowIsIdentity([1, 0, 2, 0, 10, 0, 11, 0, 11, 0, 2, 1, 1, 0, 1], "...............");
  }

  lemma ExampleRows5(b: seq<nat>, rows: seq<string>)
    requires b == [0, 0, 0, 0, 0, 0, 0, 1, 0, 0, 0, 0, 0, 0, 0] && rows == ExampleField[1..]
    ensures Reaches(b, rows, 5, [0, 0, 0, 0, 0, 1, 0, 2, 0, 1, 0, 0, 0, 0, 0], 3)
  {
    assert rows[..0] == [];
    Line0Next();
    ExtendRun(b, rows, 0, [0, 0, 0, 0, 0, 0, 0, 1, 0, 0, 0, 0, 0, 0, 0], 0, [0, 0, 0, 0, 0, 0, 0, 1, 0, 0, 0, 0, 0, 0, 0], 0);
    Line1Next();
    Line1Splits();
    ExtendRun(b, rows, 1, [0, 0, 0, 0, 0, 0, 0, 1, 0, 0, 0, 0, 0, 0, 0], 0, [0, 0, 0, 0, 0, 0, 1, 0, 1, 0, 0, 0, 0, 0, 0], 1);
    Line2Next();
    ExtendRun(b, rows, 2, [0, 0, 0, 0, 0, 0, 1, 0, 1, 0, 0, 0, 0, 0, 0], 1, [0, 0, 0, 0, 0, 0, 1, 0, 1, 0, 0, 0, 0, 0, 0], 1);
    Line3Next();
    Line3Splits();
    ExtendRun(b, rows, 3, [0, 0, 0, 0, 0, 0, 1, 0, 1, 0, 0, 0, 0, 0, 0], 1, [0, 0, 0, 0, 0, 1, 0, 2, 0, 1, 0, 0, 0, 0, 0], 3);
    Line4Next();
    ExtendRun(b, rows, 4, [0, 0, 0, 0, 0, 1, 0, 2, 0, 1, 0, 0, 0, 0, 0], 3, [0, 0, 0, 0, 0, 1, 0, 2, 0, 1, 0, 0, 0, 0, 0], 3);
  }

  lemma ExampleRows10(b: seq<nat>, rows: seq<string>)
    requires b == [0, 0, 0, 0, 0, 0, 0, 1, 0, 0, 0, 0, 0, 0, 0] && rows == ExampleField[1..]
    requires Reaches(b, rows, 5, [0, 0, 0, 0, 0, 1, 0, 2, 0, 1, 0, 0, 0, 0, 0], 3)
    ensures Reaches(b, rows, 10, [0, 0, 1, 0, 5, 0, 4, 3, 4, 0, 2, 0, 1, 0, 0], 13)
  {
    Line5Next();
    Line5Splits();
    ExtendRun(b, rows, 5, [0, 0, 0, 0, 0, 1, 0, 2, 0, 1, 0, 0, 0, 0, 0], 3, [0, 0, 0, 0, 1, 0, 3, 0, 3, 0, 1, 0, 0, 0, 0], 6);
    Line6Next();
    ExtendRun(b, rows, 6, [0, 0, 0, 0, 1, 0, 3, 0, 3, 0, 1, 0, 0, 0, 0], 6, [0, 0, 0, 0, 1, 0, 3, 0, 3, 0, 1, 0, 0, 0, 0], 6);
    Line7Next();
    Line7Splits();
    ExtendRun(b, rows, 7, [0, 0, 0, 0, 1, 0, 3, 0, 3, 0, 1, 0, 0, 0, 0], 6, [0, 0, 0, 1, 0, 4, 0, 3, 3, 1, 0, 1, 0, 0, 0], 9);
    Line8Next();
    ExtendRun(b, rows, 8, [0, 0, 0, 1, 0, 4, 0, 3, 3, 1, 0, 1, 0, 0, 0], 9, [0, 0, 0, 1, 0, 4, 0, 3, 3, 1, 0, 1, 0, 0, 0], 9);
    Line9Next();
    Line9Splits();
    ExtendRun(b, rows, 9, [0, 0, 0, 1, 0, 4, 0, 3, 3, 1, 0, 1, 0, 0, 0], 9, [0, 0, 1, 0, 5, 0, 4, 3, 4, 0, 2, 0, 1, 0, 0], 13);
  }

  lemma ExampleRows15(b: seq<nat>, rows: seq<string>)
    requires b == [0, 0, 0, 0, 0, 0, 0, 1, 0, 0, 0, 0, 0, 0, 0] && rows == ExampleField[1..]
    requires Reaches(b, rows, 10, [0, 0, 1, 0, 5, 0, 4, 3, 4, 0, 2, 0, 1, 0, 0], 13)
    ensures Reaches(b, rows, 15, [1, 0, 2, 0, 10, 0, 11, 0, 11, 0, 2, 1, 1, 0, 1], 21)
  {
    Line10Next();
    ExtendRun(b, rows, 10, [0, 0, 1, 0, 5, 0, 4, 3, 4, 0, 2, 0, 1, 0, 0], 13, [0, 0, 1, 0, 5, 0, 4, 3, 4, 0, 2, 0, 1, 0, 0], 13);
    Line11Next();
    Line11Splits();
    ExtendRun(b, rows, 11, [0, 0, 1, 0, 5, 0, 4, 3, 4, 0, 2, 0, 1, 0, 0], 13, [0, 1, 0, 1, 5, 4, 0, 7, 4, 0, 2, 1, 0, 1, 0], 16);
    Line12Next();
    ExtendRun(b, rows, 12, [0, 1, 0, 1, 5, 4, 0, 7, 4, 0, 2, 1, 0, 1, 0], 16, [0, 1, 0, 1, 5, 4, 0, 7, 4, 0, 2, 1, 0, 1, 0], 16);
    Line13Next();
    Line13Splits();
    ExtendRun(b, rows, 13, [0, 1, 0, 1, 5, 4, 0, 7, 4, 0, 2, 1, 0, 1, 0], 16, [1, 0, 2, 0, 10, 0, 11, 0, 11, 0, 2, 1, 1, 0, 1], 21);
    Line14Next();
    ExtendRun(b, rows, 14, [1, 0, 2, 0, 10, 0, 11, 0, 11, 0, 2, 1, 1, 0, 1], 21, [1, 0, 2, 0, 10, 0, 11, 0, 11, 0, 2, 1, 1, 0, 1], 21);
  }

  lemma {:induction false} ExampleSum()
    ensures Sum([1, 0, 2, 0, 10, 0, 11, 0, 11, 0, 2, 1, 1, 0, 1]) == 40
  {
    assert [1][1..] == [];
    assert Sum([1]) == 1;
    assert [0, 1][1..] == [1];
    assert Sum([0, 1]) == 1;
    assert [1, 0, 1][1..] == [0, 1];
    assert Sum([1, 0, 1]) == 2;
    assert [1, 1, 0, 1][1..] == [1, 0, 1];
    assert Sum([1, 1, 0, 1]) == 3;
    assert [2, 1, 1, 0, 1][1..] == [1, 1, 0, 1];
    assert Sum([2, 1, 1, 0, 1]) == 5;
    assert [0, 2, 1, 1, 0, 1][1..] == [2, 1, 1, 0, 1];
    assert Sum([0, 2, 1, 1, 0, 1]) == 5;
    assert [11, 0, 2, 1, 1, 0, 1][1..] == [0, 2, 1, 1, 0, 1];
    assert Sum([11, 0, 2, 1, 1, 0, 1]) == 16;
    assert [0, 11, 0, 2, 1, 1, 0, 1][1..] == [11, 0, 2, 1, 1, 0, 1];
    assert Sum([0, 11, 0, 2, 1, 1, 0, 1]) == 16;
    assert [11, 0, 11, 0, 2, 1, 1, 0, 1][1..] == [0, 11, 0, 2, 1, 1, 0, 1];
    assert Sum([11, 0, 11, 0, 2, 1, 1, 0, 1]) == 27;
    assert [0, 11, 0, 11, 0, 2, 1, 1, 0, 1][1..] == [11, 0, 11, 0, 2, 1, 1, 0, 1];
    assert Sum([0, 11, 0, 11, 0, 2, 1, 1, 0, 1]) == 27;
    assert [10, 0, 11, 0, 11, 0, 2, 1, 1, 0, 1][1..] == [0, 11, 0, 11, 0, 2, 1, 1, 0, 1];
    assert Sum([10, 0, 11, 0, 11, 0, 2, 1, 1, 0, 1]) == 37;
    assert [0, 10, 0, 11, 0, 11, 0, 2, 1, 1, 0, 1][1..] == [10, 0, 11, 0, 11, 0, 2, 1, 1, 0, 1];
    assert Sum([0, 10, 0, 11, 0, 11, 0, 2, 1, 1, 0, 1]) == 37;
    assert [2, 0, 10, 0, 11, 0, 11, 0, 2, 1, 1, 0, 1][1..] == [0, 10, 0, 11, 0, 11, 0, 2, 1, 1, 0, 1];
    assert Sum([2, 0, 10, 0, 11, 0, 11, 0, 2, 1, 1, 0, 1]) == 39;
    assert [0, 2, 0, 10, 0, 11, 0, 11, 0, 2, 1, 1, 0, 1][1..] == [2, 0, 10, 0, 11, 0, 11, 0, 2, 1, 1, 0, 1];
    assert Sum([0, 2, 0, 10, 0, 11, 0, 11, 0, 2, 1, 1, 0, 1]) == 39;
    assert [1, 0, 2, 0, 10, 0, 11, 0, 11, 0, 2, 1, 1, 0, 1][1..] == [0, 2, 0, 10, 0, 11, 0, 11, 0, 2, 1, 1, 0, 1];
    assert Sum([1, 0, 2, 0, 10, 0, 11, 0, 11, 0, 2, 1, 1, 0, 1]) == 40;
  }

  lemma ExampleStart(field: seq<string>)
    requires field == ExampleField
    ensures |field| == 16 && |field[0]| == 15 && Find(field[0], 'S') == Some(7)
  {
    assert field[0] == ".......S.......";
  }

  lemma ExampleInitial()
    ensures InitialBeams(15, 7) == [0, 0, 0, 0, 0, 0, 0, 1, 0, 0, 0, 0, 0, 0, 0]
  {
  }

  /** The example field gives 21 splits and 40 timelines. */
  lemma ExampleAnswers(field: seq<string>)
    requires field == ExampleField
    ensures WellFormed(field) && Answers(field) == (21, 40)
  {
    ExampleStart(field);
    var rows := field[1..];
    var b := InitialBeams(15, 7);
    ExampleInitial();
    ExampleRows5(b, rows);
    ExampleRows10(b, rows);
    ExampleRows15(b, rows);
    RunComplete(b, rows, [1, 0, 2, 0, 10, 0, 11, 0, 11, 0, 2, 1, 1, 0, 1], 21);
    ExampleSum();
  }

  /** One splitter straight below the start: one split, two timelines. */
  lemma SingleSplit()
    ensures WellFormed([".S.", ".^."]) && Answers([".S.", ".^."]) == (1, 2)
  {
    var lines := [".S.", ".^."];
    assert Find(lines[0], 'S') == Some(1);
    var b := InitialBeams(3, 1);
    assert b == [0, 1, 0];
    var next := Next(b, lines[1]);
    assert next[0] == 1 && next[1] == 0 && next[2] == 1;
    assert SplitsIn(b, lines[1], 1) == 0 && SplitsIn(b, lines[1], 2) == 1 && SplitsIn(b, lines[1], 3) == 1;
    var rows := lines[1..];
    assert rows[..0] == [] && rows[..|rows| - 1] == [];
    assert Sum(next) == 2 by {
      assert next == [1, 0, 1];
      assert [1, 0, 1][1..] == [0, 1] && [0, 1][1..] == [1] && [1][1..] == [];
      assert Sum([1]) == 1 && Sum([0, 1]) == 1;
    }
  }
}
