/** Worksheet arithmetic (src/bin/06.rs): a worksheet holds rows of numbers
    above a line of operators, one operator (`+` or `*`) per problem.  Part
    one reads the numbers across the rows, so that problem `c` is column `c`
    of every row; part two reads the digits down each character column and
    groups the columns into blocks, one per operator. */
module Worksheet {
  import opened Text
  import opened Arith

  // ---------------------------------------------------------------------
  // Operators

  predicate IsOp(c: char) { c == '*' || c == '+' }

  predicate AllOps(ops: seq<char>) { forall i :: 0 <= i < |ops| ==> IsOp(ops[i]) }

  /** `op_identity`: the starting value of a fold, neutral on both sides. */
  function Identity(op: char): (e: nat)
    requires IsOp(op)
    ensures forall x: nat {:trigger Apply(e, x, op)} :: Apply(e, x, op) == x && Apply(x, e, op) == x
  {
    if op == '*' then 1 else 0
  }

  /** `op_fold`: one step of the fold, the sum of the two values for `+`
      and their product for `*`. */
  function Apply(acc: nat, item: nat, op: char): (r: nat)
    requires IsOp(op)
    ensures r == if op == '+' then Sum([acc, item]) else Product([acc, item])
  {
    assert [acc, item][1..] == [item] && [item][1..] == [];
    assert Sum([item]) == item && Product([item]) == item;
    if op == '*' then acc * item else acc + item
  }

  /** The iterator `fold(op_identity(op), op_fold)`: from the left. */
  function Reduce(op: char, xs: seq<nat>): nat
    requires IsOp(op)
  {
    if xs == [] then Identity(op) else Apply(Reduce(op, xs[..|xs| - 1]), xs[|xs| - 1], op)
  }

  function Product(xs: seq<nat>): nat
  {
    if xs == [] then 1 else xs[0] * Product(xs[1..])
  }

  lemma Associative(a: nat, b: nat, c: nat)
    ensures a * (b * c) == (a * b) * c
  {
  }

  lemma {:induction false} ProductSnoc(xs: seq<nat>, x: nat)
    ensures Product(xs + [x]) == Product(xs) * x
  {
    if xs != [] {
      assert (xs + [x])[1..] == xs[1..] + [x];
      ProductSnoc(xs[1..], x);
      Associative(xs[0], Product(xs[1..]), x);
    }
  }

  /** Folding with `+` adds the items up and folding with `*` multiplies them. */
  lemma {:induction false} ReduceIsSumOrProduct(op: char, xs: seq<nat>)
    requires IsOp(op)
    ensures Reduce(op, xs) == if op == '+' then Sum(xs) else Product(xs)
  {
    if xs != [] {
      var init, last := xs[..|xs| - 1], xs[|xs| - 1];
      assert xs == init + [last];
      ReduceIsSumOrProduct(op, init);
      SumSnoc(init, last);
      ProductSnoc(init, last);
    }
  }

  /** The items that are not zero, in order (`filter(|x| *x != 0)`). */
  function NonZero(xs: seq<nat>): (ys: seq<nat>)
    ensures |ys| <= |xs|
  {
    if xs == [] then []
    else if xs[0] == 0 then NonZero(xs[1..])
    else [xs[0]] + NonZero(xs[1..])
  }

  // ---------------------------------------------------------------------
  // Part one: numbers across the rows

  /** The characters the worksheet may hold; any other one is unreachable
      in the source and panics. */
  predicate Allowed(c: char) { IsDigit(c) || IsOp(c) || c == ' ' || c == '\n' }

  /** What part one has read so far: the numbers kept, the operators seen and
      the number whose digits are being read. */
  datatype Reading = Reading(numbers: seq<nat>, ops: seq<char>, pending: nat)

  const START := Reading([], [], 0)

  /** One character: an operator is recorded, a digit extends the pending
      number, and a space or line feed keeps the pending number when it is
      not zero. */
  function Step(r: Reading, c: char): (next: Reading)
    ensures |r.numbers| <= |next.numbers| <= |r.numbers| + 1
  {
    if IsOp(c) then r.(ops := r.ops + [c])
    else if IsDigit(c) then r.(pending := r.pending * 10 + DigitValue(c))
    else if r.pending > 0 then Reading(r.numbers + [r.pending], r.ops, 0)
    else r
  }

  /** The characters of `t` read one after the other. */
  function Read(r: Reading, t: string): Reading
    decreases |t|
  {
    if t == [] then r else Read(Step(r, t[0]), t[1..])
  }

  lemma {:induction false} ReadConcat(r: Reading, a: string, b: string)
    ensures Read(r, a + b) == Read(Read(r, a), b)
    decreases |a|
  {
    if a != [] {
      assert (a + b)[0] == a[0] && (a + b)[1..] == a[1..] + b;
      ReadConcat(Step(r, a[0]), a[1..], b);
    } else {
      assert a + b == b;
    }
  }

  /** The numbers part one reads from `s`. */
  function Numbers(s: string): seq<nat> { Read(START, s).numbers }

  /** The operators part one reads from `s`. */
  function Operators(s: string): (ops: seq<char>)
    ensures AllOps(ops)
  {
    OperatorsAreOps(START, s);
    Read(START, s).ops
  }

  lemma {:induction false} OperatorsAreOps(r: Reading, t: string)
    requires AllOps(r.ops)
    ensures AllOps(Read(r, t).ops)
    decreases |t|
  {
    if t != [] {
      OperatorsAreOps(Step(r, t[0]), t[1..]);
    }
  }

  /** Column `c` of the first `h` rows of a grid stored row after row with
      `width` items per row (`Grid::from_vec`, then `get_item` at row `r`,
      column `c`). */
  function Column(data: seq<nat>, width: nat, c: nat, h: nat): (col: seq<nat>)
    requires c < width && h * width <= |data|
    ensures |col| == h
  {
    if h == 0 then []
    else
      CellInside(h - 1, width, c);
      Column(data, width, c, h - 1) + [data[(h - 1) * width + c]]
  }

  lemma CellInside(r: nat, width: nat, c: nat)
    requires c < width
    ensures r * width + c < (r + 1) * width
  {
  }

  /** Each of the first `k` columns folded with its own operator, summed. */
  function ColumnTotals(data: seq<nat>, ops: seq<char>, k: nat): nat
    requires 0 < |ops| && k <= |ops| && AllOps(ops)
  {
    if k == 0 then 0
    else
      HeightFits(|data|, |ops|);
      ColumnTotals(data, ops, k - 1) + Reduce(ops[k - 1], Column(data, |ops|, k - 1, |data| / |ops|))
  }

  lemma HeightFits(n: nat, width: nat)
    requires width > 0
    ensures (n / width) * width <= n
  {
  }

  /** The answer to part one for the numbers and operators read. */
  function Total(data: seq<nat>, ops: seq<char>): nat
    requires 0 < |ops| && AllOps(ops)
  {
    ColumnTotals(data, ops, |ops|)
  }

  /** `part_one`: one pass over the characters collects the numbers and the
      operators, then each column of the grid of numbers, `|ops|` wide, is
      folded with its operator and the results are added up.  A worksheet
      without operators divides by zero in `Grid::from_vec`. */
  method PartOne(input: string) returns (total: nat)
    requires forall c <- input :: Allowed(c)
    requires Operators(input) != []
    ensures total == Total(Numbers(input), Operators(input))
  {
    var data: seq<nat> := [];
    var ops: seq<char> := [];
    var n: nat := 0;
    var i := 0;
    while i < |input|
      invariant i <= |input|
      invariant Reading(data, ops, n) == Read(START, input[..i])
    {
      var c := input[i];
      assert input[..i + 1] == input[..i] + [c];
      ReadConcat(START, input[..i], [c]);
      assert c in input;
      if IsOp(c) {
        ops := ops + [c];
      } else if IsDigit(c) {
        n := n * 10 + DigitValue(c);
      } else if n > 0 {
        data := data + [n];
        n := 0;
      }
      i := i + 1;
    }
    assert input[..i] == input;
    total := Total(data, ops);
  }

  // ---------------------------------------------------------------------
  // Part one on a worksheet written out row by row

  /** A row of numbers as text: each number followed by a space, then a line feed. */
  function RowText(row: seq<nat>): string
  {
    if row == [] then "\n" else Decimal(row[0]) + " " + RowText(row[1..])
  }

  function RowsText(rows: seq<seq<nat>>): string
  {
    if rows == [] then "" else RowText(rows[0]) + RowsText(rows[1..])
  }

  /** The operator line: each operator followed by a space, then a line feed. */
  function OpLine(ops: seq<char>): string
  {
    if ops == [] then "\n" else [ops[0]] + " " + OpLine(ops[1..])
  }

  function Flatten(rows: seq<seq<nat>>): seq<nat>
  {
    if rows == [] then [] else rows[0] + Flatten(rows[1..])
  }

  predicate Positive(row: seq<nat>) { forall i :: 0 <= i < |row| ==> row[i] > 0 }

  /** Every row holds `width` numbers. */
  predicate Rectangular(rows: seq<seq<nat>>, width: nat) { forall i :: 0 <= i < |rows| ==> |rows[i]| == width }

  /** Digits make the number they spell. */
  lemma {:induction false} ReadDigits(r: Reading, d: string)
    requires forall c <- d :: IsDigit(c)
    requires r.pending == 0
    ensures Read(r, d) == r.(pending := DigitsValue(d))
  {
    if d == [] {
    } else {
      var init := d[..|d| - 1];
      assert d == init + [d[|d| - 1]];
      ReadConcat(r, init, [d[|d| - 1]]);
      ReadDigits(r, init);
    }
  }

  /** A number followed by a space is kept, and reading starts afresh. */
  lemma ReadNumber(r: Reading, v: nat)
    requires r.pending == 0 && v > 0
    ensures Read(r, Decimal(v) + " ") == r.(numbers := r.numbers + [v])
  {
    ReadDigits(r, Decimal(v));
    DecimalRoundTrip(v);
    ReadConcat(r, Decimal(v), " ");
  }

  lemma {:induction false} ReadRow(r: Reading, row: seq<nat>)
    requires r.pending == 0 && Positive(row)
    ensures Read(r, RowText(row)) == r.(numbers := r.numbers + row)
    decreases |row|
  {
    if row == [] {
      assert r.numbers + row == r.numbers;
    } else {
      var text := Decimal(row[0]) + " ";
      ReadNumber(r, row[0]);
      ReadConcat(r, text, RowText(row[1..]));
      ReadRow(r.(numbers := r.numbers + [row[0]]), row[1..]);
      assert r.numbers + [row[0]] + row[1..] == r.numbers + row;
    }
  }

  lemma {:induction false} ReadRows(r: Reading, rows: seq<seq<nat>>)
    requires r.pending == 0 && forall i :: 0 <= i < |rows| ==> Positive(rows[i])
    ensures Read(r, RowsText(rows)) == r.(numbers := r.numbers + Flatten(rows))
    decreases |rows|
  {
    if rows == [] {
      assert r.numbers + [] == r.numbers;
    } else {
      var r1 := r.(numbers := r.numbers + rows[0]);
      ReadRow(r, rows[0]);
      ReadConcat(r, RowText(rows[0]), RowsText(rows[1..]));
      assert Read(r, RowsText(rows)) == Read(r1, RowsText(rows[1..]));
      forall i | 0 <= i < |rows[1..]| ensures Positive(rows[1..][i]) {
        assert rows[1..][i] == rows[i + 1];
      }
      ReadRows(r1, rows[1..]);
      assert r1.numbers + Flatten(rows[1..]) == r.numbers + Flatten(rows);
    }
  }

  lemma {:induction false} ReadOpLine(r: Reading, ops: seq<char>)
    requires r.pending == 0 && AllOps(ops)
    ensures Read(r, OpLine(ops)) == r.(ops := r.ops + ops)
    decreases |ops|
  {
    if ops == [] {
      assert r.ops + ops == r.ops;
    } else {
      ReadConcat(r, [ops[0]] + " ", OpLine(ops[1..]));
      ReadOpLine(r.(ops := r.ops + [ops[0]]), ops[1..]);
      assert r.ops + [ops[0]] + ops[1..] == r.ops + ops;
    }
  }

  /** Column `c` of a worksheet given as rows. */
  function ColumnOf(rows: seq<seq<nat>>, c: nat): (col: seq<nat>)
    requires forall i :: 0 <= i < |rows| ==> c < |rows[i]|
    ensures |col| == |rows|
  {
    seq(|rows|, r requires 0 <= r < |rows| => rows[r][c])
  }

  /** Problem `c` is column `c` folded with operator `c`; the answers of the
      first `k` problems, added up. */
  function Problems(rows: seq<seq<nat>>, ops: seq<char>, k: nat): nat
    requires k <= |ops| && AllOps(ops) && Rectangular(rows, |ops|)
  {
    if k == 0 then 0 else Problems(rows, ops, k - 1) + Reduce(ops[k - 1], ColumnOf(rows, k - 1))
  }

  lemma {:induction false} FlattenLength(rows: seq<seq<nat>>, width: nat)
    requires Rectangular(rows, width)
    ensures |Flatten(rows)| == |rows| * width
  {
    if rows != [] {
      FlattenLength(rows[1..], width);
      MulSucc(|rows| - 1, width);
    }
  }

  lemma {:induction false} FlattenAppend(rows: seq<seq<nat>>, row: seq<nat>)
    ensures Flatten(rows + [row]) == Flatten(rows) + row
  {
    if rows != [] {
      assert (rows + [row])[1..] == rows[1..] + [row];
      FlattenAppend(rows[1..], row);
    }
  }

  /** Reading column `c` out of the flattened rows gives the column of the rows. */
  lemma {:induction false} ColumnOfFlatten(rows: seq<seq<nat>>, width: nat, c: nat, h: nat)
    requires c < width && h <= |rows| && Rectangular(rows, width)
    ensures h * width <= |Flatten(rows)|
    ensures Column(Flatten(rows), width, c, h) == ColumnOf(rows[..h], c)
  {
    FlattenLength(rows, width);
    MulLe(h, |rows|, width);
    if h > 0 {
      ColumnOfFlatten(rows, width, c, h - 1);
      var front := rows[..h - 1];
      assert rows == front + [rows[h - 1]] + rows[h..];
      FlattenAppend(front, rows[h - 1]);
      FlattenConcat(front + [rows[h - 1]], rows[h..]);
      FlattenLength(front, width);
      assert Flatten(rows)[(h - 1) * width + c] == rows[h - 1][c];
      assert rows[..h] == front + [rows[h - 1]];
    }
  }

  lemma MulSucc(n: nat, w: nat)
    ensures (n + 1) * w == n * w + w
  {
  }

  lemma {:induction false} FlattenConcat(xs: seq<seq<nat>>, ys: seq<seq<nat>>)
    ensures Flatten(xs + ys) == Flatten(xs) + Flatten(ys)
  {
    if xs != [] {
      assert (xs + ys)[0] == xs[0] && (xs + ys)[1..] == xs[1..] + ys;
      FlattenConcat(xs[1..], ys);
      assert Flatten(xs + ys) == xs[0] + Flatten(xs[1..] + ys);
    } else {
      assert xs + ys == ys;
    }
  }

  lemma {:induction false} TotalsAreProblems(rows: seq<seq<nat>>, ops: seq<char>, k: nat)
    requires 0 < |ops| && k <= |ops| && AllOps(ops) && Rectangular(rows, |ops|)
    ensures ColumnTotals(Flatten(rows), ops, k) == Problems(rows, ops, k)
  {
    if k > 0 {
      TotalsAreProblems(rows, ops, k - 1);
      FlattenLength(rows, |ops|);
      DivExact(|Flatten(rows)|, |ops|, |rows|);
      ColumnOfFlatten(rows, |ops|, k - 1, |rows|);
      assert rows[..|rows|] == rows;
    }
  }

  /** Part one on a worksheet written row by row above its operator line
      reads back exactly those numbers and operators, and answers the sum of
      the problems, problem `c` being column `c` folded with operator `c`. */
  lemma PartOneSolvesColumns(rows: seq<seq<nat>>, ops: seq<char>)
    requires 0 < |ops| && AllOps(ops)
    requires Rectangular(rows, |ops|) && forall i :: 0 <= i < |rows| ==> Positive(rows[i])
    ensures Numbers(RowsText(rows) + OpLine(ops)) == Flatten(rows)
    ensures Operators(RowsText(rows) + OpLine(ops)) == ops
    ensures Total(Numbers(RowsText(rows) + OpLine(ops)), Operators(RowsText(rows) + OpLine(ops)))
            == Problems(rows, ops, |ops|)
  {
    ReadConcat(START, RowsText(rows), OpLine(ops));
    ReadRows(START, rows);
    ReadOpLine(START.(numbers := Flatten(rows)), ops);
    assert [] + Flatten(rows) == Flatten(rows);
    TotalsAreProblems(rows, ops, |ops|);
  }

  // ---------------------------------------------------------------------
  // Part two: numbers down the character columns

  /** The characters of the number lines, read before the first operator;
      any other one panics. */
  predicate Cell(c: char) { IsDigit(c) || c == ' ' || c == '\n' }

  /** What part two has read of the number lines: one number per character
      column, and the column of the next character. */
  datatype Columns = Columns(nums: seq<nat>, cursor: nat)

  const FRESH := Columns([], 0)

  /** One character: a digit is appended to the number of its column, a
      space opens its column with a zero when the column is new, and a line
      feed returns to the first column. */
  function Down(st: Columns, c: char): Columns
  {
    if c == '\n' then st.(cursor := 0)
    else if c == ' ' then
      Columns(if st.cursor >= |st.nums| then st.nums + [0] else st.nums, st.cursor + 1)
    else if IsDigit(c) then
      var d := DigitValue(c);
      Columns(if st.cursor < |st.nums| then st.nums[st.cursor := st.nums[st.cursor] * 10 + d] else st.nums + [d],
              st.cursor + 1)
    else st
  }

  function ReadDown(st: Columns, t: string): Columns
    decreases |t|
  {
    if t == [] then st else ReadDown(Down(st, t[0]), t[1..])
  }

  lemma {:induction false} ReadDownConcat(st: Columns, a: string, b: string)
    ensures ReadDown(st, a + b) == ReadDown(ReadDown(st, a), b)
    decreases |a|
  {
    if a != [] {
      assert (a + b)[0] == a[0] && (a + b)[1..] == a[1..] + b;
      ReadDownConcat(Down(st, a[0]), a[1..], b);
    } else {
      assert a + b == b;
    }
  }

  /** Index of the first operator character, where part two's first loop stops. */
  function FirstOp(s: string): (k: Option<nat>)
    ensures k.None? <==> forall i :: 0 <= i < |s| ==> !IsOp(s[i])
    ensures k.Some? ==> k.value < |s| && IsOp(s[k.value]) && forall i :: 0 <= i < k.value ==> !IsOp(s[i])
  {
    if s == [] then None
    else if IsOp(s[0]) then Some(0)
    else match FirstOp(s[1..])
      case None => None
      case Some(k) => Some(k + 1)
  }

  /** The operator line, from the character after the first operator, is
      read without a panic: only spaces and operators before the line feed,
      and no operator further right than one column past the numbers. */
  predicate Closes(width: nat, rest: string, col: nat)
    decreases |rest|
  {
    rest == [] || rest[0] == '\n'
    || (IsOp(rest[0]) && col <= width && Closes(width, rest[1..], col + 1))
    || (rest[0] == ' ' && Closes(width, rest[1..], col + 1))
  }

  /** Part two's second loop: `start` is where the current operator's block
      begins and `col` counts the characters after the first operator; an
      operator closes the block before it, and the line feed closes the last
      block, which runs to the end of the numbers.  Without a line feed
      there is no answer. */
  function Finish(nums: seq<nat>, rest: string, op: char, start: nat, col: nat, total: nat): Option<nat>
    requires IsOp(op) && start <= col && start <= |nums| && Closes(|nums|, rest, col)
    decreases |rest|
  {
    if rest == [] then None
    else if rest[0] == '\n' then Some(total + Reduce(op, NonZero(nums[start..])))
    else if IsOp(rest[0]) then
      Finish(nums, rest[1..], rest[0], col, col + 1, total + Reduce(op, NonZero(nums[start..col])))
    else Finish(nums, rest[1..], op, start, col + 1, total)
  }

  /** The inputs part two reads without a panic. */
  predicate PartTwoSafe(input: string)
  {
    match FirstOp(input)
    case None => forall i :: 0 <= i < |input| ==> Cell(input[i])
    case Some(k) =>
      (forall i :: 0 <= i < k ==> Cell(input[i]))
      && Closes(|ReadDown(FRESH, input[..k]).nums|, input[k + 1..], 0)
  }

  /** The answer part two gives. */
  function PartTwoAnswer(input: string): Option<nat>
    requires PartTwoSafe(input)
  {
    match FirstOp(input)
    case None => None
    case Some(k) => Finish(ReadDown(FRESH, input[..k]).nums, input[k + 1..], input[k], 0, 0, 0)
  }

  /** The first loop of `part_two`: reads the number lines column by column
      and stops on the first operator, which it consumes. */
  method ReadNumberColumns(input: string) returns (nums: seq<nat>, i: nat)
    requires PartTwoSafe(input)
    ensures i <= |input| && nums == ReadDown(FRESH, input[..i]).nums
    ensures FirstOp(input) == if i == |input| then None else Some(i)
  {
    nums := [];
    var colIdx: nat := 0;
    i := 0;
    while i < |input| && !IsOp(input[i])
      invariant i <= |input|
      invariant forall j :: 0 <= j < i ==> !IsOp(input[j])
      invariant Columns(nums, colIdx) == ReadDown(FRESH, input[..i])
    {
      var c := input[i];
      assert input[..i + 1] == input[..i] + [c];
      ReadDownConcat(FRESH, input[..i], [c]);
      assert Cell(c);
      if c == ' ' {
        if colIdx >= |nums| {
          nums := nums + [0];
        }
        colIdx := colIdx + 1;
      } else if c == '\n' {
        colIdx := 0;
      } else {
        var d := DigitValue(c);
        if colIdx < |nums| {
          nums := nums[colIdx := nums[colIdx] * 10 + d];
        } else {
          nums := nums + [d];
        }
        colIdx := colIdx + 1;
      }
      i := i + 1;
    }
  }

  /** `part_two`: the first loop reads the number lines column by column up
      to the first operator; the second reads the operator line, folding
      each operator's block of columns, zeros left out, into the total. */
  method PartTwo(input: string) returns (r: Option<nat>)
    requires PartTwoSafe(input)
    ensures r == PartTwoAnswer(input)
  {
    var nums, i := ReadNumberColumns(input);
    if i == |input| {
      return None;
    }
    r := FoldBlocks(nums, input[i + 1..], input[i]);
  }

  /** The second loop of `part_two`: walks the operator line, folding each
      operator's block of column numbers into the total, up to the line feed. */
  method FoldBlocks(nums: seq<nat>, line: string, first: char) returns (r: Option<nat>)
    requires IsOp(first) && Closes(|nums|, line, 0)
    ensures r == Finish(nums, line, first, 0, 0, 0)
  {
    var op := first;
    var start: nat, col: nat, total: nat := 0, 0, 0;
    var j := 0;
    while j < |line|
      invariant j <= |line|
      invariant IsOp(op) && start <= col && start <= |nums| && Closes(|nums|, line[j..], col)
      invariant Finish(nums, line[j..], op, start, col, total) == Finish(nums, line, first, 0, 0, 0)
    {
      var c := line[j];
      assert line[j..][1..] == line[j + 1..];
      if c != '\n' {
        FinishStep(nums, line[j..], op, start, col, total);
      }
      if IsOp(c) {
        total := total + Reduce(op, NonZero(nums[start..col]));
        op := c;
        start := col;
      } else if c == '\n' {
        return Some(total + Reduce(op, NonZero(nums[start..])));
      }
      col := col + 1;
      j := j + 1;
    }
    return None;
  }

  /** One character of the operator line, other than the line feed. */
  lemma FinishStep(nums: seq<nat>, rest: string, op: char, start: nat, col: nat, total: nat)
    requires IsOp(op) && start <= col && start <= |nums| && Closes(|nums|, rest, col)
    requires rest != [] && rest[0] != '\n'
    ensures IsOp(rest[0]) ==>
      col <= |nums| && Closes(|nums|, rest[1..], col + 1)
      && Finish(nums, rest, op, start, col, total)
         == Finish(nums, rest[1..], rest[0], col, col + 1, total + Reduce(op, NonZero(nums[start..col])))
    ensures !IsOp(rest[0]) ==>
      Closes(|nums|, rest[1..], col + 1)
      && Finish(nums, rest, op, start, col, total) == Finish(nums, rest[1..], op, start, col + 1, total)
  {
  }

  // ---------------------------------------------------------------------
  // Part two: what the answer means

  lemma {:induction false} FinishNone(nums: seq<nat>, rest: string, op: char, start: nat, col: nat, total: nat)
    requires IsOp(op) && start <= col && start <= |nums| && Closes(|nums|, rest, col)
    ensures Finish(nums, rest, op, start, col, total).None? <==> '\n' !in rest
    decreases |rest|
  {
    if rest != [] && rest[0] != '\n' {
      assert rest == [rest[0]] + rest[1..];
      if IsOp(rest[0]) {
        FinishNone(nums, rest[1..], rest[0], col, col + 1, total + Reduce(op, NonZero(nums[start..col])));
      } else {
        FinishNone(nums, rest[1..], op, start, col + 1, total);
      }
    }
  }

  /** Part two has no answer exactly when the input holds no operator, or no
      line feed ends the operator line. */
  lemma PartTwoNoneWithoutLineFeed(input: string)
    requires PartTwoSafe(input)
    ensures PartTwoAnswer(input).None? <==>
            match FirstOp(input)
            case None => true
            case Some(k) => '\n' !in input[k + 1..]
  {
    if FirstOp(input).Some? {
      var k := FirstOp(input).value;
      FinishNone(ReadDown(FRESH, input[..k]).nums, input[k + 1..], input[k], 0, 0, 0);
    }
  }

  /** The digits found in column `k` of the lines, top to bottom. */
  function ColumnDigits(lines: seq<string>, k: nat): (ds: string)
    ensures forall c <- ds :: IsDigit(c)
  {
    if lines == [] then [] else ColumnDigits(lines[..|lines| - 1], k) + DigitAt(lines[|lines| - 1], k)
  }

  function DigitAt(line: string, k: nat): (ds: string)
    ensures forall c <- ds :: IsDigit(c)
  {
    if k < |line| && IsDigit(line[k]) then [line[k]] else []
  }

  /** The length of the longest line. */
  function Width(lines: seq<string>): nat
  {
    if lines == [] then 0
    else
      var w := Width(lines[..|lines| - 1]);
      if |lines[|lines| - 1]| > w then |lines[|lines| - 1]| else w
  }

  lemma {:induction false} BeyondWidth(lines: seq<string>, k: nat)
    requires k >= Width(lines)
    ensures ColumnDigits(lines, k) == []
  {
    if lines != [] {
      BeyondWidth(lines[..|lines| - 1], k);
    }
  }

  /** `nums` holds one number per column of the lines: the digits of the
      column read from top to bottom. */
  predicate ReadsDown(nums: seq<nat>, lines: seq<string>)
  {
    |nums| == Width(lines)
    && forall k :: 0 <= k < |nums| ==> nums[k] == DigitsValue(ColumnDigits(lines, k))
  }

  /** A number line given as text. */
  predicate NumberLine(line: string) { forall i :: 0 <= i < |line| ==> IsDigit(line[i]) || line[i] == ' ' }

  /** Reading the first `j` characters of one more line. */
  predicate ReadsDownPartly(nums: seq<nat>, lines: seq<string>, line: string, j: nat)
    requires j <= |line|
  {
    |nums| == (if j > Width(lines) then j else Width(lines))
    && forall k :: 0 <= k < |nums| ==> nums[k] == DigitsValue(ColumnDigits(lines, k) + DigitAt(line[..j], k))
  }

  lemma DigitsValueSnoc(ds: string, c: char)
    requires (forall x <- ds :: IsDigit(x)) && IsDigit(c)
    ensures DigitsValue(ds + [c]) == DigitsValue(ds) * 10 + DigitValue(c)
  {
    assert (ds + [c])[..|ds|] == ds;
  }

  /** Reading the rest of a line from column `j` on. */
  lemma {:induction false} ReadLineFrom(st: Columns, lines: seq<string>, line: string, j: nat)
    requires NumberLine(line) && j <= |line|
    requires st.cursor == j && ReadsDownPartly(st.nums, lines, line, j)
    ensures ReadDown(st, line[j..]).cursor == |line|
    ensures ReadsDownPartly(ReadDown(st, line[j..]).nums, lines, line, |line|)
    decreases |line| - j
  {
    if j < |line| {
      assert line[j..][0] == line[j] && line[j..][1..] == line[j + 1..];
      StepColumn(st.nums, lines, line, j);
      ReadLineFrom(Down(st, line[j]), lines, line, j + 1);
    }
  }

  /** A whole number line and its line feed extend the columns read down. */
  lemma ReadLine(nums: seq<nat>, lines: seq<string>, line: string)
    requires ReadsDown(nums, lines) && NumberLine(line)
    ensures ReadDown(Columns(nums, 0), line + "\n").cursor == 0
    ensures ReadsDown(ReadDown(Columns(nums, 0), line + "\n").nums, lines + [line])
  {
    forall k | 0 <= k < |nums|
      ensures nums[k] == DigitsValue(ColumnDigits(lines, k) + DigitAt(line[..0], k))
    {
      assert ColumnDigits(lines, k) + DigitAt(line[..0], k) == ColumnDigits(lines, k);
    }
    assert line[0..] == line && line[..|line|] == line;
    ReadLineFrom(Columns(nums, 0), lines, line, 0);
    ReadDownConcat(Columns(nums, 0), line, "\n");
    var all := lines + [line];
    assert all[..|all| - 1] == lines;
  }

  /** Number lines, each ended by a line feed. */
  function Layout(lines: seq<string>): string
  {
    if lines == [] then [] else Layout(lines[..|lines| - 1]) + lines[|lines| - 1] + "\n"
  }

  /** Part two's first loop, over number lines, gives for each character
      column the number its digits spell from top to bottom, and as many
      numbers as the longest line has characters. */
  lemma {:induction false} ReadLines(lines: seq<string>)
    requires forall i :: 0 <= i < |lines| ==> NumberLine(lines[i])
    ensures ReadDown(FRESH, Layout(lines)).cursor == 0
    ensures ReadsDown(ReadDown(FRESH, Layout(lines)).nums, lines)
  {
    if lines != [] {
      var init, last := lines[..|lines| - 1], lines[|lines| - 1];
      ReadLines(init);
      var st := ReadDown(FRESH, Layout(init));
      assert st == Columns(st.nums, 0);
      ReadLine(st.nums, init, last);
      ReadLayoutSnoc(lines);
    }
  }

  /** The layout of the lines is read as that of all but the last, then the
      last line and its line feed. */
  lemma {:induction false} ReadLayoutSnoc(lines: seq<string>)
    requires lines != []
    ensures lines[..|lines| - 1] + [lines[|lines| - 1]] == lines
    ensures ReadDown(FRESH, Layout(lines))
         == ReadDown(ReadDown(FRESH, Layout(lines[..|lines| - 1])), lines[|lines| - 1] + "\n")
  {
    var init, last := lines[..|lines| - 1], lines[|lines| - 1];
    assert Layout(lines) == Layout(init) + (last + "\n");
    ReadDownConcat(FRESH, Layout(init), last + "\n");
  }

  /** One character of a number line keeps the columns read down. */
  lemma StepColumn(nums: seq<nat>, lines: seq<string>, line: string, j: nat)
    requires NumberLine(line) && j < |line|
    requires ReadsDownPartly(nums, lines, line, j)
    ensures ReadsDownPartly(Down(Columns(nums, j), line[j]).nums, lines, line, j + 1)
  {
    var c := line[j];
    var after := Down(Columns(nums, j), c).nums;
    assert |after| == (if j + 1 > Width(lines) then j + 1 else Width(lines));
    forall k | 0 <= k < |after|
      ensures after[k] == DigitsValue(ColumnDigits(lines, k) + DigitAt(line[..j + 1], k))
    {
      var column := ColumnDigits(lines, k);
      if k != j {
        assert k < |nums| && after[k] == nums[k];
        assert DigitAt(line[..j + 1], k) == DigitAt(line[..j], k);
      } else {
        assert DigitAt(line[..j], k) == [];
        assert k < |nums| ==> nums[k] == DigitsValue(column) by {
          assert column + [] == column;
        }
        if k >= |nums| {
          BeyondWidth(lines, k);
        }
        if IsDigit(c) {
          assert DigitAt(line[..j + 1], k) == [c];
          DigitsValueSnoc(column, c);
          assert k >= |nums| ==> column + [c] == [c];
        } else {
          assert DigitAt(line[..j + 1], k) == [];
          assert column + [] == column;
        }
      }
    }
  }

  /** The characters an operator line holds before its line feed. */
  predicate OpChars(s: string) { forall i :: 0 <= i < |s| ==> s[i] == ' ' || IsOp(s[i]) }

  /** The operators of an operator line, in order. */
  function OpsIn(s: string): (ops: seq<char>)
    ensures AllOps(ops)
  {
    if s == [] then [] else (if IsOp(s[0]) then [s[0]] else []) + OpsIn(s[1..])
  }

  /** Where the blocks of the operators of `s` start, `col` being the count
      for the first character of `s`. */
  function CutsIn(s: string, col: nat): (cuts: seq<nat>)
    ensures |cuts| == |OpsIn(s)|
  {
    if s == [] then [] else (if IsOp(s[0]) then [col] else []) + CutsIn(s[1..], col + 1)
  }

  /** The blocks start in order, from `col` on. */
  /** Strictly increasing, each between `lo` and `hi` (excluded). */
  predicate InOrder(cuts: seq<nat>, lo: nat, hi: nat)
  {
    (forall i :: 0 <= i < |cuts| ==> lo <= cuts[i] < hi)
    && (forall i, j :: 0 <= i < j < |cuts| ==> cuts[i] < cuts[j])
  }

  lemma PrependInOrder(col: nat, later: seq<nat>, hi: nat)
    requires InOrder(later, col + 1, hi) && col < hi
    ensures InOrder([col] + later, col, hi)
  {
    var cuts := [col] + later;
    forall i | 0 <= i < |cuts| ensures col <= cuts[i] < hi {
      if i > 0 {
        assert cuts[i] == later[i - 1];
      }
    }
    forall i, j | 0 <= i < j < |cuts| ensures cuts[i] < cuts[j] {
      assert cuts[j] == later[j - 1];
      if i > 0 {
        assert cuts[i] == later[i - 1];
      }
    }
  }

  lemma {:induction false} CutsAscend(s: string, col: nat)
    ensures InOrder(CutsIn(s, col), col, col + |s|)
    decreases |s|
  {
    if s != [] {
      CutsAscend(s[1..], col + 1);
      var later := CutsIn(s[1..], col + 1);
      if IsOp(s[0]) {
        assert CutsIn(s, col) == [col] + later;
        PrependInOrder(col, later, col + |s|);
      } else {
        assert CutsIn(s, col) == later;
      }
    }
  }

  predicate Ascending(bounds: seq<nat>, n: nat)
  {
    forall i, j :: 0 <= i <= j < |bounds| ==> bounds[i] <= bounds[j] <= n
  }

  /** The numbers from index `a` up to index `b`, none when the bounds are
      out of order. */
  function Between(nums: seq<nat>, a: nat, b: nat): seq<nat>
  {
    if a <= b <= |nums| then nums[a..b] else []
  }

  /** The blocks summed: operator `op` folds the non-zero numbers from
      `start` up to the first cut, then each operator of `ops` folds the
      numbers from its own cut up to the next one, the last running to the
      end of the numbers. */
  function Blocks(nums: seq<nat>, op: char, start: nat, ops: seq<char>, cuts: seq<nat>): nat
    requires IsOp(op) && |cuts| == |ops| && AllOps(ops)
    decreases |ops|
  {
    if ops == [] then Reduce(op, NonZero(Between(nums, start, |nums|)))
    else Reduce(op, NonZero(Between(nums, start, cuts[0]))) + Blocks(nums, ops[0], cuts[0], ops[1..], cuts[1..])
  }

  lemma OpCharsTail(s: string)
    requires OpChars(s) && s != []
    ensures OpChars(s[1..]) && (s[0] == ' ' || IsOp(s[0]))
  {
    forall i | 0 <= i < |s[1..]|
      ensures s[1..][i] == ' ' || IsOp(s[1..][i])
    {
      assert s[1..][i] == s[i + 1];
    }
  }

  lemma {:induction false} CutsFit(n: nat, s: string, tail: string, col: nat)
    requires OpChars(s) && Closes(n, s + "\n" + tail, col)
    ensures forall i :: 0 <= i < |CutsIn(s, col)| ==> CutsIn(s, col)[i] <= n
    decreases |s|
  {
    if s != [] {
      var rest := s + "\n" + tail;
      assert rest[0] == s[0] && rest[1..] == s[1..] + "\n" + tail;
      OpCharsTail(s);
      assert s[0] == ' ' || IsOp(s[0]);
      assert Closes(n, rest[1..], col + 1) && (IsOp(s[0]) ==> col <= n);
      CutsFit(n, s[1..], tail, col + 1);
      var later := CutsIn(s[1..], col + 1);
      if IsOp(s[0]) {
        assert CutsIn(s, col) == [col] + later;
      } else {
        assert CutsIn(s, col) == later;
      }
    }
  }

  lemma Framed(start: nat, cuts: seq<nat>, n: nat)
    requires start <= n && forall i :: 0 <= i < |cuts| ==> start <= cuts[i] <= n
    requires forall i, j :: 0 <= i < j < |cuts| ==> cuts[i] < cuts[j]
    ensures Ascending([start] + cuts + [n], n)
  {
    var b := [start] + cuts + [n];
    forall i, j | 0 <= i <= j < |b|
      ensures b[i] <= b[j] <= n
    {
      if j == |b| - 1 {
        assert b[j] == n;
        if 0 < i < |b| - 1 {
          assert b[i] == cuts[i - 1];
        }
      } else if i == 0 {
        assert b[i] == start;
        if j > 0 {
          assert b[j] == cuts[j - 1];
        }
      } else {
        assert b[i] == cuts[i - 1] && b[j] == cuts[j - 1];
      }
    }
  }

  /** The blocks of an operator line that part two reads without a panic
      start in order and inside the numbers. */
  lemma BlocksInOrder(nums: seq<nat>, s: string, tail: string, start: nat, col: nat)
    requires OpChars(s) && start <= col && start <= |nums|
    requires Closes(|nums|, s + "\n" + tail, col)
    ensures Ascending([start] + CutsIn(s, col) + [|nums|], |nums|)
  {
    CutsFit(|nums|, s, tail, col);
    CutsAscend(s, col);
    Framed(start, CutsIn(s, col), |nums|);
  }

  /** The second loop of part two, run over an operator line, sums the
      blocks: each operator folds the numbers from where its block starts to
      where the next one's starts, the last block running to the end. */
  lemma {:induction false} FinishSumsBlocks(nums: seq<nat>, s: string, tail: string, op: char,
                                            start: nat, col: nat, total: nat)
    requires IsOp(op) && OpChars(s) && start <= col && start <= |nums|
    requires Closes(|nums|, s + "\n" + tail, col)
    ensures Finish(nums, s + "\n" + tail, op, start, col, total)
            == Some(total + Blocks(nums, op, start, OpsIn(s), CutsIn(s, col)))
    decreases |s|, 1
  {
    if s == [] {
      assert (s + "\n" + tail)[0] == '\n';
      assert Between(nums, start, |nums|) == nums[start..];
    } else if IsOp(s[0]) {
      FinishAtOperator(nums, s, tail, op, start, col, total);
    } else {
      FinishAtSpace(nums, s, tail, op, start, col, total);
    }
  }

  lemma {:induction false} FinishAtOperator(nums: seq<nat>, s: string, tail: string, op: char,
                                            start: nat, col: nat, total: nat)
    requires IsOp(op) && OpChars(s) && start <= col && start <= |nums|
    requires Closes(|nums|, s + "\n" + tail, col)
    requires s != [] && IsOp(s[0])
    ensures Finish(nums, s + "\n" + tail, op, start, col, total)
            == Some(total + Blocks(nums, op, start, OpsIn(s), CutsIn(s, col)))
    decreases |s|, 0
  {
    var rest := s + "\n" + tail;
    assert rest[0] == s[0] && rest[1..] == s[1..] + "\n" + tail;
    OpCharsTail(s);
    assert col <= |nums| && Closes(|nums|, rest[1..], col + 1);
    var r := Reduce(op, NonZero(nums[start..col]));
    assert Finish(nums, rest, op, start, col, total) == Finish(nums, rest[1..], s[0], col, col + 1, total + r);
    FinishSumsBlocks(nums, s[1..], tail, s[0], col, col + 1, total + r);
    assert OpsIn(s) == [s[0]] + OpsIn(s[1..]) && CutsIn(s, col) == [col] + CutsIn(s[1..], col + 1);
    assert Between(nums, start, col) == nums[start..col];
  }

  lemma {:induction false} FinishAtSpace(nums: seq<nat>, s: string, tail: string, op: char,
                                         start: nat, col: nat, total: nat)
    requires IsOp(op) && OpChars(s) && start <= col && start <= |nums|
    requires Closes(|nums|, s + "\n" + tail, col)
    requires s != [] && !IsOp(s[0])
    ensures Finish(nums, s + "\n" + tail, op, start, col, total)
            == Some(total + Blocks(nums, op, start, OpsIn(s), CutsIn(s, col)))
    decreases |s|, 0
  {
    var rest := s + "\n" + tail;
    assert rest[0] == s[0] && rest[1..] == s[1..] + "\n" + tail;
    OpCharsTail(s);
    assert s[0] == ' ' && Closes(|nums|, rest[1..], col + 1);
    assert Finish(nums, rest, op, start, col, total) == Finish(nums, rest[1..], op, start, col + 1, total);
    FinishSumsBlocks(nums, s[1..], tail, op, start, col + 1, total);
    assert OpsIn(s) == OpsIn(s[1..]) && CutsIn(s, col) == CutsIn(s[1..], col + 1);
  }

  lemma {:induction false} LayoutCells(lines: seq<string>)
    requires forall i :: 0 <= i < |lines| ==> NumberLine(lines[i])
    ensures forall i :: 0 <= i < |Layout(lines)| ==> Cell(Layout(lines)[i])
  {
    if lines != [] {
      var init, last := lines[..|lines| - 1], lines[|lines| - 1];
      LayoutCells(init);
      var a, t := Layout(init), Layout(lines);
      assert t == a + last + "\n";
      forall i | 0 <= i < |t|
        ensures Cell(t[i])
      {
        if i < |a| {
          assert t[i] == a[i];
        } else if i < |a| + |last| {
          assert t[i] == last[i - |a|];
        }
      }
    }
  }

  lemma {:induction false} FitsCloses(width: nat, s: string, tail: string, col: nat)
    requires OpChars(s)
    requires forall i :: 0 <= i < |s| && IsOp(s[i]) ==> col + i <= width
    ensures Closes(width, s + "\n" + tail, col)
    decreases |s|
  {
    var rest := s + "\n" + tail;
    if s == [] {
      assert rest[0] == '\n';
    } else {
      assert rest[0] == s[0] && rest[1..] == s[1..] + "\n" + tail;
      OpCharsTail(s);
      forall i | 0 <= i < |s[1..]| && IsOp(s[1..][i])
        ensures col + 1 + i <= width
      {
        assert s[1..][i] == s[i + 1];
      }
      FitsCloses(width, s[1..], tail, col + 1);
      assert IsOp(s[0]) ==> col + 0 <= width;
    }
  }

  /** The numbers part two reads from number lines: for each character
      column, the number its digits spell from top to bottom. */
  function Transposed(lines: seq<string>): (nums: seq<nat>)
    ensures |nums| == Width(lines)
  {
    seq(Width(lines), k requires 0 <= k => DigitsValue(ColumnDigits(lines, k)))
  }

  /** No operator of the line stands further right than one column past the
      widest number line; further right, the source's slice would panic. */
  predicate Fits(opLine: string, width: nat)
  {
    forall i :: 1 <= i < |opLine| && IsOp(opLine[i]) ==> i - 1 <= width
  }

  /** Part two on number lines above an operator line that starts with an
      operator: each operator folds the non-zero column numbers of its block
      and the blocks are added up.  A block starts one column before its
      operator (at the blank column between problems, which reads as zero and
      is left out) and ends where the next block starts; the last runs to the
      widest line's end. */
  lemma PartTwoSumsBlocks(lines: seq<string>, opLine: string, tail: string)
    requires forall i :: 0 <= i < |lines| ==> NumberLine(lines[i])
    requires opLine != [] && IsOp(opLine[0]) && OpChars(opLine) && Fits(opLine, Width(lines))
    ensures PartTwoSafe(Layout(lines) + opLine + "\n" + tail)
    ensures PartTwoAnswer(Layout(lines) + opLine + "\n" + tail)
            == Some(Blocks(Transposed(lines), opLine[0], 0, OpsIn(opLine[1..]), CutsIn(opLine[1..], 0)))
  {
    SheetAnswer(lines, opLine, tail);
    OperatorLineBlocks(Transposed(lines), opLine, tail);
  }

  /** Part two's second loop over an operator line that fits the numbers. */
  lemma OperatorLineBlocks(nums: seq<nat>, opLine: string, tail: string)
    requires opLine != [] && IsOp(opLine[0]) && OpChars(opLine) && Fits(opLine, |nums|)
    ensures OpChars(opLine[1..]) && Closes(|nums|, opLine[1..] + "\n" + tail, 0)
    ensures Finish(nums, opLine[1..] + "\n" + tail, opLine[0], 0, 0, 0)
            == Some(Blocks(nums, opLine[0], 0, OpsIn(opLine[1..]), CutsIn(opLine[1..], 0)))
  {
    FitsOperatorLine(opLine, tail, |nums|);
    FinishSumsBlocks(nums, opLine[1..], tail, opLine[0], 0, 0, 0);
  }

  /** Part two's first loop reads the number lines as `Transposed` and stops
      at the operator that starts the operator line. */
  lemma SheetAnswer(lines: seq<string>, opLine: string, tail: string)
    requires forall i :: 0 <= i < |lines| ==> NumberLine(lines[i])
    requires opLine != [] && IsOp(opLine[0]) && OpChars(opLine) && Fits(opLine, Width(lines))
    ensures PartTwoSafe(Layout(lines) + opLine + "\n" + tail)
    ensures Closes(|Transposed(lines)|, opLine[1..] + "\n" + tail, 0)
    ensures PartTwoAnswer(Layout(lines) + opLine + "\n" + tail)
            == Finish(Transposed(lines), opLine[1..] + "\n" + tail, opLine[0], 0, 0, 0)
  {
    var input := Layout(lines) + opLine + "\n" + tail;
    var k := |Layout(lines)|;
    SplitAtOperator(lines, opLine, tail);
    NumbersAreTransposed(lines);
    var nums := Transposed(lines);
    FitsOperatorLine(opLine, tail, |nums|);
    AnswerAt(input, k, nums);
  }

  /** Part two's answer once its first loop has stopped at operator `k`. */
  lemma AnswerAt(input: string, k: nat, nums: seq<nat>)
    requires FirstOp(input) == Some(k)
    requires forall i :: 0 <= i < k ==> Cell(input[i])
    requires ReadDown(FRESH, input[..k]).nums == nums
    requires Closes(|nums|, input[k + 1..], 0)
    ensures PartTwoSafe(input)
    ensures PartTwoAnswer(input) == Finish(nums, input[k + 1..], input[k], 0, 0, 0)
  {
  }

  /** Part two's first loop stops at the operator that starts the operator line. */
  lemma SplitAtOperator(lines: seq<string>, opLine: string, tail: string)
    requires forall i :: 0 <= i < |lines| ==> NumberLine(lines[i])
    requires opLine != [] && IsOp(opLine[0])
    ensures var input := Layout(lines) + opLine + "\n" + tail;
            var k := |Layout(lines)|;
            FirstOp(input) == Some(k) && input[..k] == Layout(lines) && input[k] == opLine[0]
            && input[k + 1..] == opLine[1..] + "\n" + tail
            && forall i :: 0 <= i < k ==> Cell(input[i])
  {
    var input := Layout(lines) + opLine + "\n" + tail;
    var k := |Layout(lines)|;
    var line := opLine + "\n" + tail;
    assert input == Layout(lines) + line;
    assert input[..k] == Layout(lines) && input[k..] == line;
    assert line[1..] == opLine[1..] + "\n" + tail;
    assert input[k + 1..] == input[k..][1..];
    LayoutCells(lines);
    forall i | 0 <= i < k
      ensures Cell(input[i]) && !IsOp(input[i])
    {
      assert input[i] == Layout(lines)[i];
    }
    assert IsOp(input[k]);
    var first := FirstOp(input);
    assert first.Some?;
    assert first.value <= k;
    assert first.value >= k;
  }

  lemma NumbersAreTransposed(lines: seq<string>)
    requires forall i :: 0 <= i < |lines| ==> NumberLine(lines[i])
    ensures ReadDown(FRESH, Layout(lines)).nums == Transposed(lines)
  {
    ReadLines(lines);
  }

  lemma FitsOperatorLine(opLine: string, tail: string, width: nat)
    requires opLine != [] && OpChars(opLine) && Fits(opLine, width)
    ensures OpChars(opLine[1..]) && Closes(width, opLine[1..] + "\n" + tail, 0)
  {
    OpCharsTail(opLine);
    forall i | 0 <= i < |opLine[1..]| && IsOp(opLine[1..][i])
      ensures 0 + i <= width
    {
      assert opLine[1..][i] == opLine[i + 1];
    }
    FitsCloses(width, opLine[1..], tail, 0);
  }
}
