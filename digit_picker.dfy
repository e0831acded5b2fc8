/** Largest number from kept digits (src/bin/03.rs): each input line is a
    row of decimal digits, and `solve` keeps `k` of them, in order, so that
    the number they spell is as large as possible. */
module DigitPicker {
  import opened Text
  import opened Arith

  // ---------------------------------------------------------------------
  // Reading the input

  predicate DigitLine(line: string) { forall c <- line :: IsDigit(c) }

  /** The inputs `stream_input` reads without panicking: digits only. */
  predicate WellFormedInput(input: string) { forall l <- Lines(input) :: DigitLine(l) }

  /** A row of digits, each below ten. */
  predicate IsRow(row: seq<nat>) { forall i :: 0 <= i < |row| ==> row[i] < 10 }

  /** One line as its digit values. */
  function Row(line: string): (row: seq<nat>)
    requires DigitLine(line)
    ensures |row| == |line| && IsRow(row)
    ensures forall i :: 0 <= i < |line| ==> row[i] == DigitValue(line[i])
  {
    seq(|line|, i requires 0 <= i < |line| => DigitValue(line[i]))
  }

  /** `stream_input`: every line as a row, in order. */
  function StreamInput(input: string): (rows: seq<seq<nat>>)
    requires WellFormedInput(input)
    ensures |rows| == |Lines(input)|
    ensures forall i :: 0 <= i < |rows| ==> IsRow(rows[i]) && |rows[i]| == |Lines(input)[i]|
  {
    var ls := Lines(input);
    seq(|ls|, i requires 0 <= i < |ls| => Row(ls[i]))
  }

  // ---------------------------------------------------------------------
  // Numbers spelled by digits

  /** The number the digits spell, most significant first. */
  function Number(ds: seq<nat>): nat
  {
    if ds == [] then 0 else Number(ds[..|ds| - 1]) * 10 + ds[|ds| - 1]
  }

  lemma {:induction false} NumberBound(ds: seq<nat>)
    requires IsRow(ds)
    ensures Number(ds) < Pow10(|ds|)
  {
    if ds != [] {
      NumberBound(ds[..|ds| - 1]);
    }
  }

  /** The leading digit weighs ten to the number of digits after it. */
  lemma {:induction false} NumberCons(d: nat, ds: seq<nat>)
    ensures Number([d] + ds) == d * Pow10(|ds|) + Number(ds)
  {
    if ds != [] {
      var init := ds[..|ds| - 1];
      assert ([d] + ds)[..|ds|] == [d] + init;
      NumberCons(d, init);
      var p := Pow10(|init|);
      calc {
        Number([d] + ds);
        Number([d] + init) * 10 + ds[|ds| - 1];
        (d * p + Number(init)) * 10 + ds[|ds| - 1];
        d * (p * 10) + (Number(init) * 10 + ds[|ds| - 1]);
      }
    }
  }

  /** Of two digit rows of one length, a smaller leading digit spells the smaller number. */
  lemma LeadDecides(d: nat, ds: seq<nat>, e: nat, es: seq<nat>)
    requires IsRow(ds) && IsRow(es) && |ds| == |es| && d < e
    ensures Number([d] + ds) < Number([e] + es)
  {
    NumberCons(d, ds);
    NumberCons(e, es);
    NumberBound(ds);
    MulStep(d, e, Pow10(|ds|));
  }

  /** Behind equal leading digits, the rest decides. */
  lemma LeadTie(d: nat, ds: seq<nat>, es: seq<nat>)
    requires |ds| == |es| && Number(ds) <= Number(es)
    ensures Number([d] + ds) <= Number([d] + es)
  {
    NumberCons(d, ds);
    NumberCons(d, es);
  }

  lemma MulStep(d: nat, e: nat, p: nat)
    requires d < e
    ensures d * p + p <= e * p
  {
    assert e * p == (e - d - 1) * p + (d + 1) * p;
  }

  // ---------------------------------------------------------------------
  // Choosing digits

  /** Indices strictly increasing, all in `[lo, hi)`. */
  predicate Increasing(idx: seq<nat>, lo: nat, hi: nat)
  {
    (forall i :: 0 <= i < |idx| ==> lo <= idx[i] < hi)
    && forall i, j :: 0 <= i < j < |idx| ==> idx[i] < idx[j]
  }

  predicate Below(idx: seq<nat>, n: nat) { forall i :: 0 <= i < |idx| ==> idx[i] < n }

  /** The digits at the chosen indices, in order. */
  function Pick(row: seq<nat>, idx: seq<nat>): (ds: seq<nat>)
    requires Below(idx, |row|)
    ensures |ds| == |idx|
  {
    if idx == [] then [] else [row[idx[0]]] + Pick(row, idx[1..])
  }

  lemma {:induction false} PickIsRow(row: seq<nat>, idx: seq<nat>)
    requires IsRow(row) && Below(idx, |row|)
    ensures IsRow(Pick(row, idx))
  {
    if idx != [] {
      PickIsRow(row, idx[1..]);
    }
  }

  /** An increasing choice of `n` indices below `hi` starts at most `n` before `hi`. */
  lemma {:induction false} Room(idx: seq<nat>, lo: nat, hi: nat)
    requires Increasing(idx, lo, hi) && idx != []
    ensures idx[0] + |idx| <= hi
  {
    if |idx| > 1 {
      Room(idx[1..], idx[0] + 1, hi);
    }
  }

  /** The position of the largest digit of the window `row[lo..=hi]`, the
      leftmost among equals: `max_by` keeps the last maximum it meets, and it
      walks the window in reverse. The position is counted from the start of
      the row, where `solve` adds `beg` to the window's own index. */
  function LeftmostMax(row: seq<nat>, lo: nat, hi: nat): (p: nat)
    requires lo <= hi < |row|
    ensures lo <= p <= hi
    decreases hi - lo
  {
    if lo == hi then lo
    else
      var q := LeftmostMax(row, lo + 1, hi);
      if row[lo] >= row[q] then lo else q
  }

  /** The digit found is the largest of the window, and every digit before
      it is smaller. */
  lemma {:induction false} LeftmostMaxIsMax(row: seq<nat>, lo: nat, hi: nat)
    requires lo <= hi < |row|
    ensures var p := LeftmostMax(row, lo, hi);
      (forall q :: lo <= q <= hi ==> row[q] <= row[p]) && forall q :: lo <= q < p ==> row[q] < row[p]
    decreases hi - lo
  {
    if lo < hi {
      LeftmostMaxIsMax(row, lo + 1, hi);
    }
  }

  /** The greedy pick from `beg` with `k` digits to go: the leftmost largest
      digit of the window that leaves room for the other `k - 1`. */
  function First(row: seq<nat>, beg: nat, k: nat): (p: nat)
    requires beg + k <= |row| && k > 0
    ensures beg <= p <= |row| - k
  {
    LeftmostMax(row, beg, |row| - k)
  }

  /** The greedy choice of `k` indices from `beg` on. */
  function Greedy(row: seq<nat>, beg: nat, k: nat): (idx: seq<nat>)
    requires beg + k <= |row|
    ensures |idx| == k && Below(idx, |row|)
    decreases k
  {
    if k == 0 then []
    else
      var p := First(row, beg, k);
      [p] + Greedy(row, p + 1, k - 1)
  }

  /** The greedy indices are strictly increasing: a choice of digits in order. */
  lemma {:induction false} GreedyIncreasing(row: seq<nat>, beg: nat, k: nat)
    requires beg + k <= |row|
    ensures Increasing(Greedy(row, beg, k), beg, |row|)
    decreases k
  {
    if k > 0 {
      GreedyIncreasing(row, First(row, beg, k) + 1, k - 1);
    }
  }

  /** Any choice starts at a digit no larger than the greedy first one, and
      one as large does not start before it. */
  lemma GreedyHead(row: seq<nat>, beg: nat, k: nat, idx: seq<nat>)
    requires beg + k <= |row| && k > 0
    requires |idx| == k && Increasing(idx, beg, |row|)
    ensures var p := First(row, beg, k);
      row[idx[0]] <= row[p] && (row[idx[0]] == row[p] ==> idx[0] >= p)
  {
    Room(idx, beg, |row|);
    LeftmostMaxIsMax(row, beg, |row| - k);
  }

  /** Lexicographic order on rows of one length. */
  predicate LexLe(a: seq<nat>, b: seq<nat>)
    requires |a| == |b|
  {
    a == [] || a[0] < b[0] || (a[0] == b[0] && LexLe(a[1..], b[1..]))
  }

  /** On digit rows of one length, lexicographic order is numeric order. */
  lemma {:induction false} LexLeNumber(a: seq<nat>, b: seq<nat>)
    requires IsRow(a) && IsRow(b) && |a| == |b| && LexLe(a, b)
    ensures Number(a) <= Number(b)
  {
    if a != [] {
      assert a == [a[0]] + a[1..] && b == [b[0]] + b[1..];
      if a[0] < b[0] {
        LeadDecides(a[0], a[1..], b[0], b[1..]);
      } else {
        LexLeNumber(a[1..], b[1..]);
        LeadTie(a[0], a[1..], b[1..]);
      }
    }
  }

  /** No increasing choice of `k` digits from `beg` on comes lexicographically
      after the greedy one. */
  lemma {:induction false} GreedyIsLexLargest(row: seq<nat>, beg: nat, k: nat, idx: seq<nat>)
    requires beg + k <= |row|
    requires |idx| == k && Increasing(idx, beg, |row|)
    ensures LexLe(Pick(row, idx), Pick(row, Greedy(row, beg, k)))
    decreases k
  {
    if k > 0 {
      var p := First(row, beg, k);
      GreedyHead(row, beg, k, idx);
      if row[idx[0]] == row[p] {
        assert Increasing(idx[1..], p + 1, |row|);
        GreedyIsLexLargest(row, p + 1, k - 1, idx[1..]);
      }
    }
  }

  /** The loop of `solve`, as a function: `acc` holds the digits picked so far. */
  function GreedyNumber(row: seq<nat>, beg: nat, k: nat, acc: nat): nat
    requires beg + k <= |row|
    decreases k
  {
    if k == 0 then acc
    else
      var p := First(row, beg, k);
      GreedyNumber(row, p + 1, k - 1, acc * 10 + row[p])
  }

  /** The number `solve::<k>` returns for a row. */
  function Largest(row: seq<nat>, k: nat): nat
    requires k <= |row|
  {
    GreedyNumber(row, 0, k, 0)
  }

  /** The loop's number is the one the greedy indices spell, behind `acc`. */
  lemma {:induction false} GreedyNumberSpells(row: seq<nat>, beg: nat, k: nat, acc: nat)
    requires beg + k <= |row|
    ensures GreedyNumber(row, beg, k, acc) == acc * Pow10(k) + Number(Pick(row, Greedy(row, beg, k)))
    decreases k
  {
    if k > 0 {
      var p := First(row, beg, k);
      var d := row[p];
      var rest := Pick(row, Greedy(row, p + 1, k - 1));
      var q := Pow10(k - 1);
      assert GreedyNumber(row, beg, k, acc) == (acc * 10 + d) * q + Number(rest) by {
        GreedyNumberSpells(row, p + 1, k - 1, acc * 10 + d);
      }
      assert Number(Pick(row, Greedy(row, beg, k))) == d * q + Number(rest) by {
        assert Pick(row, Greedy(row, beg, k)) == [d] + rest;
        NumberCons(d, rest);
      }
      Distribute(acc, d, q);
    }
  }

  lemma Distribute(acc: nat, d: nat, q: nat)
    ensures (acc * 10 + d) * q == acc * (10 * q) + d * q
  {
  }

  /** The greedy number is spelled by an increasing choice of `k` digits, no
      such choice spells a larger one, and it has at most `k` digits. */
  lemma LargestIsMax(row: seq<nat>, k: nat)
    requires IsRow(row) && k <= |row|
    ensures Largest(row, k) == Number(Pick(row, Greedy(row, 0, k))) && Increasing(Greedy(row, 0, k), 0, |row|)
    ensures Largest(row, k) < Pow10(k)
    ensures forall idx :: |idx| == k && Increasing(idx, 0, |row|) ==> Number(Pick(row, idx)) <= Largest(row, k)
  {
    var g := Pick(row, Greedy(row, 0, k));
    GreedyNumberSpells(row, 0, k, 0);
    GreedyIncreasing(row, 0, k);
    PickIsRow(row, Greedy(row, 0, k));
    NumberBound(g);
    forall idx | |idx| == k && Increasing(idx, 0, |row|) ensures Number(Pick(row, idx)) <= Largest(row, k) {
      GreedyIsLexLargest(row, 0, k, idx);
      PickIsRow(row, idx);
      LexLeNumber(Pick(row, idx), g);
    }
  }

  /** `solve::<k>`: `k` rounds, each appending the leftmost largest digit of
      the window that starts after the previous pick and leaves room for the
      remaining rounds. The result is the largest number any `k` digits of
      the row spell in order, and it has at most `k` digits. */
  method Solve(row: seq<nat>, k: nat) returns (result: nat)
    requires k <= |row|
    ensures result == Largest(row, k)
    ensures IsRow(row) ==> result < Pow10(k)
    ensures IsRow(row) ==> forall idx :: |idx| == k && Increasing(idx, 0, |row|) ==> Number(Pick(row, idx)) <= result
  {
    result := 0;
    var lastIdx := 0;
    for n := 0 to k
      invariant (if n == 0 then 0 else lastIdx + 1) + (k - n) <= |row|
      invariant GreedyNumber(row, if n == 0 then 0 else lastIdx + 1, k - n, result) == Largest(row, k)
    {
      var beg := if n == 0 then 0 else lastIdx + 1;
      var end := |row| - (k - n);
      var idx := LeftmostMax(row, beg, end);
      result := result * 10 + row[idx];
      lastIdx := idx;
    }
    if IsRow(row) {
      LargestIsMax(row, k);
    }
  }

  // ---------------------------------------------------------------------
  // The two parts

  /** The largest `k`-digit numbers of the rows, added up. */
  function Total(rows: seq<seq<nat>>, k: nat): (t: nat)
    requires forall i :: 0 <= i < |rows| ==> k <= |rows[i]| && IsRow(rows[i])
    ensures t <= |rows| * (Pow10(k) - 1)
  {
    if rows == [] then 0
    else
      var last := rows[|rows| - 1];
      LargestIsMax(last, k);
      AddRow(|rows| - 1, Pow10(k) - 1);
      Total(rows[..|rows| - 1], k) + Largest(last, k)
  }

  lemma AddRow(n: nat, m: nat)
    ensures n * m + m == (n + 1) * m
  {
  }

  /** Every line can give `k` digits. */
  predicate LongEnough(input: string, k: nat) { forall l <- Lines(input) :: k <= |l| }

  /** The sum over the lines of the largest `k`-digit numbers. */
  function Output(input: string, k: nat): (r: Option<nat>)
    requires WellFormedInput(input) && LongEnough(input, k)
    ensures r.Some? && r.value <= |Lines(input)| * (Pow10(k) - 1)
  {
    var rows := StreamInput(input);
    assert forall i :: 0 <= i < |rows| ==> k <= |rows[i]| by {
      forall i | 0 <= i < |rows| ensures k <= |rows[i]| {
        assert Lines(input)[i] in Lines(input);
      }
    }
    Some(Total(rows, k))
  }

  /** `part_one`: the sum over the lines of the largest two-digit numbers. */
  function PartOne(input: string): (r: Option<nat>)
    requires WellFormedInput(input) && LongEnough(input, 2)
    ensures r.Some? && r.value <= |Lines(input)| * 99
  {
    assert Pow10(2) - 1 == 99;
    Output(input, 2)
  }

  /** `part_two`: the same with twelve digits. */
  function PartTwo(input: string): (r: Option<nat>)
    requires WellFormedInput(input) && LongEnough(input, 12)
    ensures r.Some? && r.value <= |Lines(input)| * 999_999_999_999
  {
    assert Pow10(12) - 1 == 999_999_999_999;
    Output(input, 12)
  }
}
