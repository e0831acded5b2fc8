/** The tachyon beam splitter field (src/bin/07.rs): a vector of per-column
    timeline counts is pushed through the field one line at a time; a `.`
    lets the count through, a `^` sends it one column left and one column
    right (dropping a side that falls off the field) and counts one split. */
module BeamSplitter {
  import opened Text
  import opened Arith

  // ---------------------------------------------------------------------
  // Specification of one line

  predicate IsSplitter(line: string, c: nat) { c < |line| && line[c] == '^' }
  predicate IsPass(line: string, c: nat) { c < |line| && line[c] == '.' }

  /** Every occupied column can be read in `line` and holds `^` or `.`;
      otherwise the source indexes past the line or reaches `unreachable!`. */
  predicate Routable(beams: seq<nat>, line: string)
  {
    forall c :: 0 <= c < |beams| && beams[c] > 0 ==> IsSplitter(line, c) || IsPass(line, c)
  }

  /** What column `j` of the next vector has received once the source columns
      below `upto` have been routed: its own count through a `.`, and the
      counts of the splitters immediately to its left and right. */
  function Arriving(beams: seq<nat>, line: string, j: nat, upto: nat): nat
    requires j < |beams| && upto <= |beams|
  {
    (if j < upto && IsPass(line, j) then beams[j] else 0)
    + (if 0 < j && j - 1 < upto && IsSplitter(line, j - 1) then beams[j - 1] else 0)
    + (if j + 1 < upto && IsSplitter(line, j + 1) then beams[j + 1] else 0)
  }

  /** The beam vector after one line. */
  function Next(beams: seq<nat>, line: string): (next: seq<nat>)
    ensures |next| == |beams|
  {
    seq(|beams|, j requires 0 <= j < |beams| => Arriving(beams, line, j, |beams|))
  }

  /** Number of occupied splitters among the columns below `upto`. */
  function SplitsIn(beams: seq<nat>, line: string, upto: nat): nat
    requires upto <= |beams|
  {
    if upto == 0 then 0
    else SplitsIn(beams, line, upto - 1) + (if beams[upto - 1] > 0 && IsSplitter(line, upto - 1) then 1 else 0)
  }

  /** Total count standing on splitters among the columns below `upto`. */
  function SplitMass(beams: seq<nat>, line: string, upto: nat): nat
    requires upto <= |beams|
  {
    if upto == 0 then 0
    else SplitMass(beams, line, upto - 1) + (if IsSplitter(line, upto - 1) then beams[upto - 1] else 0)
  }

  // ---------------------------------------------------------------------
  // Specification of the whole field

  /** The vector after the rows, applied first to last. */
  function After(beams: seq<nat>, rows: seq<string>): (final: seq<nat>)
    ensures |final| == |beams|
  {
    if rows == [] then beams else Next(After(beams, rows[..|rows| - 1]), rows[|rows| - 1])
  }

  /** Occupied splitter cells met over all the rows. */
  function TotalSplits(beams: seq<nat>, rows: seq<string>): nat
  {
    if rows == [] then 0
    else TotalSplits(beams, rows[..|rows| - 1]) + SplitsIn(After(beams, rows[..|rows| - 1]), rows[|rows| - 1], |beams|)
  }

  /** Each row is routable from the vector that reaches it. */
  predicate Flows(beams: seq<nat>, rows: seq<string>)
  {
    rows == [] || (Flows(beams, rows[..|rows| - 1]) && Routable(After(beams, rows[..|rows| - 1]), rows[|rows| - 1]))
  }

  /** The vector before the first line is processed: 1 at `start`, 0 elsewhere. */
  function InitialBeams(width: nat, start: nat): (b: seq<nat>)
    requires start < width
    ensures |b| == width && b[start] == 1
    ensures forall c :: 0 <= c < width && c != start ==> b[c] == 0
    ensures Sum(b) == 1
  {
    SumOfUnit(seq(width, c => if c == start then 1 else 0), start);
    seq(width, c => if c == start then 1 else 0)
  }

  /** The input the source can run on: a first line holding `S`, and every
      later line routable from the vector that reaches it. */
  predicate WellFormed(lines: seq<string>)
  {
    |lines| > 0 && 'S' in lines[0]
    && Flows(InitialBeams(|lines[0]|, Find(lines[0], 'S').value), lines[1..])
  }

  function Start(lines: seq<string>): (start: nat)
    requires |lines| > 0 && 'S' in lines[0]
    ensures start < |lines[0]| && lines[0][start] == 'S' && 'S' !in lines[0][..start]
  {
    Find(lines[0], 'S').value
  }

  /** The two answers the source computes: the split count and the number of timelines. */
  function Answers(lines: seq<string>): (nat, nat)
    requires |lines| > 0 && 'S' in lines[0]
  {
    var b0 := InitialBeams(|lines[0]|, Start(lines));
    (TotalSplits(b0, lines[1..]), Sum(After(b0, lines[1..])))
  }

  // ---------------------------------------------------------------------
  // The simulation, with two buffers swapped after every line

  /** Routes one line: adds every occupied column's count into `next` and
      returns the number of occupied splitters met. */
  method RouteLine(beams: array<nat>, next: array<nat>, line: string) returns (splits: nat)
    requires beams != next && beams.Length == next.Length
    requires Routable(beams[..], line)
    requires forall j :: 0 <= j < next.Length ==> next[j] == 0
    modifies next
    ensures next[..] == Next(beams[..], line)
    ensures splits == SplitsIn(beams[..], line, beams.Length)
  {
    var width := beams.Length;
    ghost var cur := beams[..];
    splits := 0;
    var col := 0;
    while col < width
      invariant 0 <= col <= width
      invariant forall j :: 0 <= j < width ==> next[j] == Arriving(cur, line, j, col)
      invariant splits == SplitsIn(cur, line, col)
    {
      ArrivingStep(cur, line, col);
      ghost var before := next[..];
      var beam := beams[col];
      if beam > 0 {
        if line[col] == '^' {
          if col > 0 {
            next[col - 1] := next[col - 1] + beam;
          }
          if col + 1 < width {
            next[col + 1] := next[col + 1] + beam;
          }
          splits := splits + 1;
        } else {
          next[col] := next[col] + beam;
        }
      }
      assert forall j :: 0 <= j < width ==> next[j] == before[j] + Outflow(cur, line, col, j);
      col := col + 1;
    }
    assert next[..] == Next(cur, line);
  }

  lemma ArrivingStep(beams: seq<nat>, line: string, s: nat)
    requires s < |beams|
    ensures forall j :: 0 <= j < |beams| ==>
      Arriving(beams, line, j, s + 1) == Arriving(beams, line, j, s) + Outflow(beams, line, s, j)
  {
  }

  /** `fill(0)`. */
  method Clear(a: array<nat>)
    modifies a
    ensures forall j :: 0 <= j < a.Length ==> a[j] == 0
  {
    var j := 0;
    while j < a.Length
      invariant 0 <= j <= a.Length
      invariant forall i :: 0 <= i < j ==> a[i] == 0
    {
      a[j] := 0;
      j := j + 1;
    }
  }

  /** `beams.iter().sum()`. */
  method Total(a: array<nat>) returns (total: nat)
    ensures total == Sum(a[..])
  {
    total := 0;
    var c := 0;
    while c < a.Length
      invariant 0 <= c <= a.Length
      invariant total == Sum(a[..c])
    {
      assert a[..c + 1][..c] == a[..c];
      SumLast(a[..c + 1]);
      total := total + a[c];
      c := c + 1;
    }
    assert a[..c] == a[..];
  }

  method Solve(input: string) returns (splits: nat, timelines: nat)
    requires WellFormed(Lines(input))
    ensures (splits, timelines) == Answers(Lines(input))
  {
    var lines := Lines(input);
    var width := |lines[0]|;
    var start := Find(lines[0], 'S').value;
    ghost var b0 := InitialBeams(width, start);

    splits := 0;
    var beams := new nat[width](_ => 0);
    var next := new nat[width](_ => 0);
    beams[start] := 1;
    assert beams[..] == b0;

    var k := 1;
    while k < |lines|
      invariant 1 <= k <= |lines|
      invariant fresh(beams) && fresh(next)
      invariant beams.Length == width && next.Length == width && beams != next
      invariant beams[..] == After(b0, lines[1..k])
      invariant splits == TotalSplits(b0, lines[1..k])
      invariant forall j :: 0 <= j < width ==> next[j] == 0
    {
      var line := lines[k];
      assert lines[1..k + 1][..k - 1] == lines[1..k] && lines[1..k + 1][k - 1] == line;
      FlowsPrefix(b0, lines[1..], k);
      assert lines[1..][..k] == lines[1..k + 1];
      var count := RouteLine(beams, next, line);
      splits := splits + count;
      beams, next := next, beams;
      Clear(next);
      k := k + 1;
    }
    assert lines[1..k] == lines[1..];
    timelines := Total(beams);
  }

  method PartOne(input: string) returns (r: Option<nat>)
    requires WellFormed(Lines(input))
    ensures r == Some(Answers(Lines(input)).0)
  {
    var splits, _ := Solve(input);
    r := Some(splits);
  }

  method PartTwo(input: string) returns (r: Option<nat>)
    requires WellFormed(Lines(input))
    ensures r == Some(Answers(Lines(input)).1)
  {
    var _, timelines := Solve(input);
    r := Some(timelines);
  }

  // ---------------------------------------------------------------------
  // Lemmas about the specification

  lemma {:induction false} FlowsPrefix(beams: seq<nat>, rows: seq<string>, k: nat)
    requires Flows(beams, rows) && k <= |rows|
    ensures Flows(beams, rows[..k])
  {
    if k < |rows| {
      assert rows[..|rows| - 1][..k] == rows[..k];
      FlowsPrefix(beams, rows[..|rows| - 1], k);
    } else {
      assert rows[..k] == rows;
    }
  }

  /** A split counts once per occupied splitter, whatever the count standing
      on it: the splits equal the number of occupied splitter columns. */
  lemma {:induction false} SplitsCountOccupiedSplitters(beams: seq<nat>, line: string, upto: nat)
    requires upto <= |beams|
    ensures SplitsIn(beams, line, upto) == |set c | 0 <= c < upto && beams[c] > 0 && IsSplitter(line, c)|
  {
    if upto > 0 {
      SplitsCountOccupiedSplitters(beams, line, upto - 1);
      var lower := set c | 0 <= c < upto - 1 && beams[c] > 0 && IsSplitter(line, c);
      var all := set c | 0 <= c < upto && beams[c] > 0 && IsSplitter(line, c);
      if beams[upto - 1] > 0 && IsSplitter(line, upto - 1) {
        assert all == lower + {upto - 1};
      } else {
        assert all == lower;
      }
    }
  }

  /** Two vectors occupying the same columns meet the same splits. */
  lemma {:induction false} SplitsIgnoreCounts(a: seq<nat>, b: seq<nat>, line: string, upto: nat)
    requires |a| == |b| && upto <= |a|
    requires forall c :: 0 <= c < |a| ==> (a[c] > 0 <==> b[c] > 0)
    ensures SplitsIn(a, line, upto) == SplitsIn(b, line, upto)
  {
    if upto > 0 {
      SplitsIgnoreCounts(a, b, line, upto - 1);
    }
  }

  /** An empty column contributes nothing: what its cell holds changes
      neither the next vector nor the split count. */
  lemma {:induction false} EmptyColumnIsInert(beams: seq<nat>, line: string, c: nat, x: char)
    requires c < |beams| && c < |line| && beams[c] == 0
    ensures Next(beams, line[c := x]) == Next(beams, line)
    ensures SplitsIn(beams, line[c := x], |beams|) == SplitsIn(beams, line, |beams|)
  {
    InertSplits(beams, line, c, x, |beams|);
  }

  lemma {:induction false} InertSplits(beams: seq<nat>, line: string, c: nat, x: char, upto: nat)
    requires c < |beams| && c < |line| && beams[c] == 0 && upto <= |beams|
    ensures SplitsIn(beams, line[c := x], upto) == SplitsIn(beams, line, upto)
  {
    if upto > 0 {
      InertSplits(beams, line, c, x, upto - 1);
    }
  }

  /** A `.` cell hands its whole count to the same column, and with no
      splitter beside it that is all the column receives. */
  lemma PassCarriesCount(beams: seq<nat>, line: string, c: nat)
    requires c < |beams| && IsPass(line, c)
    ensures Next(beams, line)[c] >= beams[c]
    ensures !IsSplitter(line, c + 1) && (c == 0 || !IsSplitter(line, c - 1)) ==> Next(beams, line)[c] == beams[c]
  {
  }

  /** A row without splitters leaves the vector and the split count alone. */
  lemma NoSplitterRowIsIdentity(beams: seq<nat>, line: string)
    requires Routable(beams, line)
    requires forall c :: 0 <= c < |beams| && c < |line| ==> line[c] != '^'
    ensures Next(beams, line) == beams
    ensures SplitsIn(beams, line, |beams|) == 0
  {
    NoSplits(beams, line, |beams|);
  }

  lemma {:induction false} NoSplits(beams: seq<nat>, line: string, upto: nat)
    requires upto <= |beams|
    requires forall c :: 0 <= c < |beams| && c < |line| ==> line[c] != '^'
    ensures SplitsIn(beams, line, upto) == 0
  {
    if upto > 0 {
      NoSplits(beams, line, upto - 1);
    }
  }

  // Sums of vectors

  lemma {:induction false} SumOfZeros(s: seq<nat>)
    requires forall i :: 0 <= i < |s| ==> s[i] == 0
    ensures Sum(s) == 0
  {
    if s != [] {
      SumOfZeros(s[..|s| - 1]);
      SumLast(s);
    }
  }

  lemma {:induction false} SumOfUnit(s: seq<nat>, k: nat)
    requires k < |s|
    requires forall i :: 0 <= i < |s| && i != k ==> s[i] == 0
    ensures Sum(s) == s[k]
  {
    SumLast(s);
    if k == |s| - 1 {
      SumOfZeros(s[..|s| - 1]);
    } else {
      SumOfUnit(s[..|s| - 1], k);
    }
  }

  lemma {:induction false} SumOfPointwise(x: seq<nat>, y: seq<nat>, z: seq<nat>)
    requires |x| == |y| == |z|
    requires forall i :: 0 <= i < |z| ==> z[i] == x[i] + y[i]
    ensures Sum(z) == Sum(x) + Sum(y)
  {
    if z != [] {
      SumOfPointwise(x[..|x| - 1], y[..|y| - 1], z[..|z| - 1]);
      SumLast(x);
      SumLast(y);
      SumLast(z);
    }
  }

  /** What source column `s` sends to column `j`. */
  function Outflow(beams: seq<nat>, line: string, s: nat, j: nat): nat
    requires s < |beams| && j < |beams|
  {
    if IsPass(line, s) && j == s then beams[s]
    else if IsSplitter(line, s) && (j + 1 == s || j == s + 1) then beams[s]
    else 0
  }

  /** Everything column `s` sends on: once through a `.`, once to each side
      of a `^` that stays inside the field. */
  function Emitted(beams: seq<nat>, line: string, s: nat): nat
    requires s < |beams|
  {
    (if IsPass(line, s) then beams[s] else 0)
    + (if IsSplitter(line, s) && s > 0 then beams[s] else 0)
    + (if IsSplitter(line, s) && s + 1 < |beams| then beams[s] else 0)
  }

  function EmittedBelow(beams: seq<nat>, line: string, upto: nat): nat
    requires upto <= |beams|
  {
    if upto == 0 then 0 else EmittedBelow(beams, line, upto - 1) + Emitted(beams, line, upto - 1)
  }

  lemma OutflowSum(beams: seq<nat>, line: string, s: nat)
    requires s < |beams|
    ensures Sum(seq(|beams|, j requires 0 <= j < |beams| => Outflow(beams, line, s, j))) == Emitted(beams, line, s)
  {
    var n := |beams|;
    var d := seq(n, j requires 0 <= j < n => Outflow(beams, line, s, j));
    if IsPass(line, s) {
      SumOfUnit(d, s);
    } else if IsSplitter(line, s) {
      var left := seq(n, j requires 0 <= j < n => if j + 1 == s then beams[s] else 0);
      var right := seq(n, j requires 0 <= j < n => if j == s + 1 then beams[s] else 0);
      if s > 0 { SumOfUnit(left, s - 1); } else { SumOfZeros(left); }
      if s + 1 < n { SumOfUnit(right, s + 1); } else { SumOfZeros(right); }
      SumOfPointwise(left, right, d);
    } else {
      SumOfZeros(d);
    }
  }

  /** The total received after routing the columns below `upto` is what they emitted. */
  lemma {:induction false} ReceivedIsEmitted(beams: seq<nat>, line: string, upto: nat)
    requires upto <= |beams|
    ensures Sum(seq(|beams|, j requires 0 <= j < |beams| => Arriving(beams, line, j, upto))) == EmittedBelow(beams, line, upto)
  {
    var n := |beams|;
    var v := seq(n, j requires 0 <= j < n => Arriving(beams, line, j, upto));
    if upto == 0 {
      SumOfZeros(v);
    } else {
      ReceivedIsEmitted(beams, line, upto - 1);
      var u := seq(n, j requires 0 <= j < n => Arriving(beams, line, j, upto - 1));
      var d := seq(n, j requires 0 <= j < n => Outflow(beams, line, upto - 1, j));
      OutflowSum(beams, line, upto - 1);
      SumOfPointwise(u, d, v);
    }
  }

  /** The count standing on occupied splitters at the two edges of the field,
      whose outer half falls off. */
  function EdgeLoss(beams: seq<nat>, line: string): nat
    requires |beams| > 0
  {
    (if IsSplitter(line, 0) then beams[0] else 0)
    + (if IsSplitter(line, |beams| - 1) then beams[|beams| - 1] else 0)
  }

  lemma {:induction false} EmittedBelowBalance(beams: seq<nat>, line: string, upto: nat)
    requires Routable(beams, line) && 0 < upto <= |beams|
    ensures EmittedBelow(beams, line, upto) + (if IsSplitter(line, 0) then beams[0] else 0)
            + (if upto == |beams| && IsSplitter(line, upto - 1) then beams[upto - 1] else 0)
            == Sum(beams[..upto]) + SplitMass(beams, line, upto)
  {
    assert beams[..upto][..upto - 1] == beams[..upto - 1];
    SumLast(beams[..upto]);
    if upto > 1 {
      EmittedBelowBalance(beams, line, upto - 1);
    }
  }

  /** One line changes the number of timelines by the count standing on
      occupied splitters, less what falls off at the two edges. */
  lemma RowTotal(beams: seq<nat>, line: string)
    requires Routable(beams, line) && |beams| > 0
    ensures Sum(Next(beams, line)) + EdgeLoss(beams, line) == Sum(beams) + SplitMass(beams, line, |beams|)
  {
    ReceivedIsEmitted(beams, line, |beams|);
    EmittedBelowBalance(beams, line, |beams|);
    assert beams[..|beams|] == beams;
  }

  /** With no occupied splitter at either edge, the timelines grow by exactly
      the count standing on occupied splitters. */
  lemma RowTotalInside(beams: seq<nat>, line: string)
    requires Routable(beams, line) && |beams| > 0
    requires beams[0] == 0 || !IsSplitter(line, 0)
    requires beams[|beams| - 1] == 0 || !IsSplitter(line, |beams| - 1)
    ensures Sum(Next(beams, line)) == Sum(beams) + SplitMass(beams, line, |beams|)
  {
    RowTotal(beams, line);
  }

  lemma {:induction false} SplitMassCoversEdges(beams: seq<nat>, line: string, upto: nat)
    requires 2 <= upto <= |beams|
    ensures SplitMass(beams, line, upto) >= (if IsSplitter(line, 0) then beams[0] else 0)
            + (if IsSplitter(line, upto - 1) then beams[upto - 1] else 0)
  {
    if upto > 2 {
      SplitMassCoversEdges(beams, line, upto - 1);
    }
  }

  /** On a field at least two columns wide no line loses timelines. */
  lemma RowTotalGrows(beams: seq<nat>, line: string)
    requires Routable(beams, line) && |beams| >= 2
    ensures Sum(Next(beams, line)) >= Sum(beams)
  {
    RowTotal(beams, line);
    SplitMassCoversEdges(beams, line, |beams|);
  }

  /** Starting from one timeline on a field at least two columns wide, at
      least one timeline reaches the last line. */
  lemma {:induction false} TimelinesNeverVanish(beams: seq<nat>, rows: seq<string>)
    requires Flows(beams, rows) && |beams| >= 2
    ensures Sum(After(beams, rows)) >= Sum(beams)
  {
    if rows != [] {
      TimelinesNeverVanish(beams, rows[..|rows| - 1]);
      RowTotalGrows(After(beams, rows[..|rows| - 1]), rows[|rows| - 1]);
    }
  }

  /** Lines made of `.` only: no splits and the single starting timeline. */
  lemma {:induction false} NoSplitterField(beams: seq<nat>, rows: seq<string>)
    requires forall r :: 0 <= r < |rows| ==> |rows[r]| >= |beams|
    requires forall r, c :: 0 <= r < |rows| && 0 <= c < |beams| ==> rows[r][c] == '.'
    ensures Flows(beams, rows) && After(beams, rows) == beams && TotalSplits(beams, rows) == 0
  {
    if rows != [] {
      var init := rows[..|rows| - 1];
      NoSplitterField(beams, init);
      var line := rows[|rows| - 1];
      assert forall c :: 0 <= c < |beams| ==> line[c] == '.';
      NoSplitterRowIsIdentity(beams, line);
    }
  }

  /** A field whose lines hold only `.` gives no splits and one timeline. */
  lemma NoSplitterAnswers(lines: seq<string>)
    requires |lines| > 0 && 'S' in lines[0]
    requires forall r :: 1 <= r < |lines| ==> |lines[r]| >= |lines[0]|
    requires forall r, c :: 1 <= r < |lines| && 0 <= c < |lines[0]| ==> lines[r][c] == '.'
    ensures WellFormed(lines) && Answers(lines) == (0, 1)
  {
    var b0 := InitialBeams(|lines[0]|, Start(lines));
    var rows := lines[1..];
    assert forall r :: 0 <= r < |rows| ==> rows[r] == lines[r + 1];
    NoSplitterField(b0, rows);
  }
}
