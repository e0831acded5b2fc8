/** The safe dial (src/bin/01.rs): a dial numbered 0 to 99 starts at 50 and
    is turned by a list of rotations such as `L68` (towards lower numbers)
    or `R48` (towards higher numbers). Part one counts the rotations that
    leave the dial at 0; part two counts every click that brings the dial
    to 0, during a rotation or at its end. */
module Dial {
  import opened Text
  import opened Arith

  const SIZE: nat := 100
  const START: nat := 50

  // ---------------------------------------------------------------- input

  /** One line: `L` makes the step negative, any other first character
      positive; the rest must parse as a signed 64-bit integer. An empty line
      makes the source panic when it slices off the first character. */
  function Rotation(line: string): (r: Option<int>)
    ensures |line| == 0 ==> r.None?
    ensures r.Some? ==> ParseI64(line[1..]).Some?
  {
    if |line| == 0 then None
    else
      match ParseI64(line[1..])
      case None => None
      case Some(x) => Some(if line[0] == 'L' then -x else x)
  }

  /** The rotations of a list of lines, with the zero rotations dropped;
      `None` when some line would make the source panic. */
  function Stream(ls: seq<string>): (r: Option<seq<int>>)
    ensures r.Some? <==> forall i :: 0 <= i < |ls| ==> Rotation(ls[i]).Some?
    ensures r.Some? ==> |r.value| <= |ls| && NonZero(r.value)
  {
    if ls == [] then Some([])
    else
      match Rotation(ls[0])
      case None => None
      case Some(v) =>
        match Stream(ls[1..])
        case None =>
          assert exists i :: 1 <= i < |ls| && Rotation(ls[i]).None? by {
            var j :| 0 <= j < |ls[1..]| && Rotation(ls[1..][j]).None?;
            assert Rotation(ls[j + 1]).None?;
          }
          None
        case Some(rest) => Some(if v == 0 then rest else [v] + rest)
  }

  /** Every rotation moves the dial: the zero steps are filtered out. */
  predicate NonZero(vs: seq<int>)
  {
    forall i :: 0 <= i < |vs| ==> vs[i] != 0
  }

  function StreamInput(input: string): Option<seq<int>>
  {
    Stream(Lines(input))
  }

  /** How one rotation is written: `L` or `R`, then the number of clicks. */
  function Line(v: int): string
  {
    if v < 0 then "L" + Decimal(-v) else "R" + Decimal(v)
  }

  /** The input as it is written: one rotation per line. */
  function Format(vs: seq<int>): string
  {
    if vs == [] then "" else Line(vs[0]) + "\n" + Format(vs[1..])
  }

  lemma ParseDecimal(n: nat)
    requires n < I64_LIMIT
    ensures ParseI64(Decimal(n)) == Some(n)
  {
    DecimalRoundTrip(n);
    var s := Decimal(n);
    assert IsDigit(s[0]);
  }

  lemma {:induction false} LineRoundTrip(v: int)
    requires -(I64_LIMIT as int) < v < I64_LIMIT
    ensures Rotation(Line(v)) == Some(v)
    ensures '\n' !in Line(v) && Line(v)[|Line(v)| - 1] != '\r'
  {
    var line := Line(v);
    var digits := if v < 0 then Decimal(-v) else Decimal(v);
    assert line[1..] == digits;
    assert forall c <- digits :: IsDigit(c);
    assert line[|line| - 1] == digits[|digits| - 1];
    ParseDecimal(if v < 0 then -v else v);
  }

  /** Writing non-zero rotations out and reading them back gives them back. */
  lemma {:induction false} StreamRoundTrip(vs: seq<int>)
    requires NonZero(vs) && forall i :: 0 <= i < |vs| ==> -(I64_LIMIT as int) < vs[i] < I64_LIMIT
    ensures StreamInput(Format(vs)) == Some(vs)
  {
    if vs != [] {
      LineRoundTrip(vs[0]);
      LinesCons(Line(vs[0]), Format(vs[1..]));
      StreamRoundTrip(vs[1..]);
      assert Lines(Format(vs))[1..] == Lines(Format(vs[1..]));
      assert [vs[0]] + vs[1..] == vs;
    }
  }

  // ---------------------------------------------------------------- the dial

  /** The position after one rotation, as the source computes it. */
  function Turn(c: int, v: int): (n: int)
    ensures 0 <= n < SIZE
  {
    (c + TruncRem(v, SIZE)) % SIZE
  }

  /** Reducing the step first changes nothing: the new position is the old
      one plus the step, taken modulo 100. */
  lemma TurnIsModular(c: int, v: int)
    ensures Turn(c, v) == (c + v) % SIZE
  {
    var q := TruncDiv(v, SIZE);
    TruncDivRem(v, SIZE);
    ModShift(c + TruncRem(v, SIZE), q);
  }

  lemma ModShift(a: int, q: int)
    ensures (a + SIZE * q) % SIZE == a % SIZE
  {
  }

  /** The direction a rotation clicks in: -1 for a step to the left, 1 otherwise. */
  function StepDirection(v: int): int { if v < 0 then -1 else 1 }

  // ---------------------------------------------------------------- part one

  /** The fold of part one over (position, count). */
  function FoldOne(c: int, r: nat, vs: seq<int>): (res: (int, nat))
    ensures r <= res.1 <= r + |vs|
    decreases |vs|
  {
    if vs == [] then (c, r)
    else
      var n := Turn(c, vs[0]);
      FoldOne(n, r + if n == 0 then 1 else 0, vs[1..])
  }

  /** Reference count for part one: the rotations after which the running
      total, never wrapped, is a multiple of 100. */
  function Landings(total: int, vs: seq<int>): nat
    decreases |vs|
  {
    if vs == [] then 0
    else (if (total + vs[0]) % SIZE == 0 then 1 else 0) + Landings(total + vs[0], vs[1..])
  }

  function Sum(vs: seq<int>): int
  {
    if vs == [] then 0 else vs[0] + Sum(vs[1..])
  }

  /** Part one's fold tracks the running total modulo 100 and counts exactly
      the rotations that end on 0. */
  lemma {:induction false} FoldOneCountsLandings(total: int, r: nat, vs: seq<int>)
    ensures FoldOne(total % SIZE, r, vs) == ((total + Sum(vs)) % SIZE, r + Landings(total, vs))
    decreases |vs|
  {
    if vs != [] {
      TurnIsModular(total % SIZE, vs[0]);
      ModShift(total + vs[0], -(total / SIZE));
      assert Turn(total % SIZE, vs[0]) == (total + vs[0]) % SIZE;
      FoldOneCountsLandings(total + vs[0], r + if (total + vs[0]) % SIZE == 0 then 1 else 0, vs[1..]);
    }
  }

  function PartOne(input: string): (r: Option<nat>)
    ensures r.Some? <==> StreamInput(input).Some?
    ensures r.Some? ==> r.value <= |Lines(input)|
  {
    match StreamInput(input)
    case None => None
    case Some(vs) => Some(FoldOne(START, 0, vs).1)
  }

  lemma PartOneIsLandings(input: string)
    requires StreamInput(input).Some?
    ensures PartOne(input) == Some(Landings(START, StreamInput(input).value))
  {
    FoldOneCountsLandings(START, 0, StreamInput(input).value);
  }

  // ---------------------------------------------------------------- part two

  /** Reference behaviour for part two: turn the dial one click at a time,
      `m` clicks in direction `d`, and count the clicks that end on 0. */
  function Clicks(c: int, d: int, m: nat): nat
    decreases m
  {
    if m == 0 then 0
    else
      var c' := (c + d) % SIZE;
      (if c' == 0 then 1 else 0) + Clicks(c', d, m - 1)
  }

  /** Where the dial stands after those clicks. */
  function After(c: int, d: int, m: nat): int
    decreases m
  {
    if m == 0 then c else After((c + d) % SIZE, d, m - 1)
  }

  /** Every click of every rotation, in order. */
  function Sweep(c: int, vs: seq<int>): nat
    decreases |vs|
  {
    if vs == [] then 0
    else
      var v := vs[0];
      Clicks(c, StepDirection(v), Abs(v)) + Sweep(After(c, StepDirection(v), Abs(v)), vs[1..])
  }

  /** The source's test for an extra pass over 0 after the full turns: a
      left turn from a non-zero position that went up, a right turn that went
      down, or a landing on 0. */
  predicate PassesZero(c: int, v: int, n: int)
  {
    (v < 0 && n > c && c != 0) || (v > 0 && n < c && c != 0) || n == 0
  }

  /** One rotation as the source counts it: full turns, plus one for the
      pass over 0 (`as written`). */
  function HitsAsWritten(c: int, v: int): nat
  {
    Abs(v) / SIZE + if PassesZero(c, v, Turn(c, v)) then 1 else 0
  }

  /** One rotation counted right: the extra pass only exists when the step
      is not a whole number of turns. */
  function Hits(c: int, v: int): nat
  {
    Abs(v) / SIZE + if TruncRem(v, SIZE) != 0 && PassesZero(c, v, Turn(c, v)) then 1 else 0
  }

  function FoldTwoAsWritten(c: int, r: nat, vs: seq<int>): (res: (int, nat))
    ensures res.1 >= r
    decreases |vs|
  {
    if vs == [] then (c, r)
    else FoldTwoAsWritten(Turn(c, vs[0]), r + HitsAsWritten(c, vs[0]), vs[1..])
  }

  function FoldTwo(c: int, r: nat, vs: seq<int>): (res: (int, nat))
    ensures res.1 >= r
    decreases |vs|
  {
    if vs == [] then (c, r)
    else FoldTwo(Turn(c, vs[0]), r + Hits(c, vs[0]), vs[1..])
  }

  /** Part two as the source computes it. */
  function PartTwoAsWritten(input: string): (r: Option<nat>)
    ensures r.Some? <==> StreamInput(input).Some?
  {
    match StreamInput(input)
    case None => None
    case Some(vs) => Some(FoldTwoAsWritten(START, 0, vs).1)
  }

  /** Part two with the pass test corrected. */
  function PartTwo(input: string): (r: Option<nat>)
    ensures r.Some? <==> StreamInput(input).Some?
  {
    match StreamInput(input)
    case None => None
    case Some(vs) => Some(FoldTwo(START, 0, vs).1)
  }

  /** Turning right from `c`, the count of clicks on 0 and the final
      position in closed form. */
  lemma {:induction false} ClicksRight(c: int, m: nat)
    requires 0 <= c < SIZE
    ensures Clicks(c, 1, m) == (c + m) / SIZE
    ensures After(c, 1, m) == (c + m) % SIZE
    decreases m
  {
    if m > 0 {
      var c' := (c + 1) % SIZE;
      ClicksRight(c', m - 1);
      if c + 1 == SIZE {
        WrapRight(c, m);
      } else {
        assert c' == c + 1;
      }
    }
  }

  /** Turning right from the last position: the first click lands on zero. */
  lemma WrapRight(c: int, m: nat)
    requires c + 1 == SIZE && m > 0
    ensures (c + m) / SIZE == (m - 1) / SIZE + 1 && (c + m) % SIZE == (m - 1) % SIZE
  {
    assert c + m == (m - 1) + SIZE * 1;
    ModShift(m - 1, 1);
  }

  function Mirror(c: int): int { (SIZE - c) % SIZE }

  /** Turning left is turning right on the mirrored dial. */
  lemma {:induction false} ClicksLeft(c: int, m: nat)
    requires 0 <= c < SIZE
    ensures Clicks(c, -1, m) == Clicks(Mirror(c), 1, m)
    ensures After(c, -1, m) == Mirror(After(Mirror(c), 1, m))
    decreases m
  {
    if m > 0 {
      var c' := (c - 1) % SIZE;
      assert Mirror(c') == (Mirror(c) + 1) % SIZE;
      ClicksLeft(c', m - 1);
    }
  }

  lemma RightArith(c: int, q: nat, rem: nat)
    requires 0 <= c < SIZE && rem < SIZE
    ensures (c + SIZE * q + rem) / SIZE
         == q + if rem != 0 && PassesZero(c, 1, (c + rem) % SIZE) then 1 else 0
  {
    ModShift(c + rem, q);
    if c + rem < SIZE {
      assert (c + SIZE * q + rem) / SIZE == q;
    } else {
      assert (c + SIZE * q + rem) / SIZE == q + 1;
    }
  }

  lemma LeftArith(c: int, q: nat, rem: nat)
    requires 0 <= c < SIZE && rem < SIZE
    ensures (Mirror(c) + SIZE * q + rem) / SIZE
         == q + if rem != 0 && PassesZero(c, -1, (c - rem) % SIZE) then 1 else 0
  {
    if c == 0 || rem < c {
      assert (Mirror(c) + SIZE * q + rem) / SIZE == q;
    } else {
      assert (Mirror(c) + SIZE * q + rem) / SIZE == q + 1;
    }
  }

  /** The corrected count of a right turn is the number of its clicks that
      stop on 0, and the source's new position is where the clicks end. */
  lemma HitsRight(c: int, v: int)
    requires 0 <= c < SIZE && v > 0
    ensures Hits(c, v) == Clicks(c, 1, v)
    ensures Turn(c, v) == After(c, 1, v)
  {
    TurnIsModular(c, v);
    ClicksRight(c, v);
    RightArith(c, v / SIZE, v % SIZE);
  }

  lemma MirrorAfter(c: int, m: nat)
    requires 0 <= c < SIZE
    ensures Mirror((Mirror(c) + m) % SIZE) == (c - m) % SIZE
  {
    var a := (Mirror(c) + m) / SIZE;
    var b := if c == 0 then 1 else 0;
    var k := (Mirror(c) + m) % SIZE;
    assert Mirror(c) == SIZE - c - SIZE * b;
    assert k == Mirror(c) + m - SIZE * a;
    assert SIZE - k == c - m + SIZE * (a + b);
    ModShift(c - m, a + b);
  }

  /** The same for a left turn. */
  lemma HitsLeft(c: int, v: int)
    requires 0 <= c < SIZE && v < 0
    ensures Hits(c, v) == Clicks(c, -1, -v)
    ensures Turn(c, v) == After(c, -1, -v)
  {
    var m := -v;
    ClicksLeft(c, m);
    ClicksRight(Mirror(c), m);
    assert Hits(c, v) == Clicks(c, -1, m) by {
      assert TruncRem(v, SIZE) == -(m % SIZE);
      assert m == SIZE * (m / SIZE) + m % SIZE;
      LeftArith(c, m / SIZE, m % SIZE);
    }
    TurnIsModular(c, v);
    MirrorAfter(c, m);
  }

  lemma HitsAreClicks(c: int, v: int)
    requires 0 <= c < SIZE && v != 0
    ensures Hits(c, v) == Clicks(c, StepDirection(v), Abs(v))
    ensures Turn(c, v) == After(c, StepDirection(v), Abs(v))
  {
    if v > 0 { HitsRight(c, v); } else { HitsLeft(c, v); }
  }

  /** The source's count differs from the clicks exactly when the dial
      stands on 0 and the rotation is a whole number of turns. */
  lemma AsWrittenDiffers(c: int, v: int)
    requires 0 <= c < SIZE && v != 0
    ensures HitsAsWritten(c, v) == Hits(c, v) + if c == 0 && TruncRem(v, SIZE) == 0 then 1 else 0
  {
    TurnIsModular(c, v);
    ModShift(c, TruncDiv(v, SIZE));
  }

  /** Part two's corrected fold counts every click that stops on 0. */
  lemma {:induction false} FoldTwoCountsClicks(c: int, r: nat, vs: seq<int>)
    requires 0 <= c < SIZE && NonZero(vs)
    ensures FoldTwo(c, r, vs).1 == r + Sweep(c, vs)
    decreases |vs|
  {
    if vs != [] {
      HitsAreClicks(c, vs[0]);
      FoldTwoCountsClicks(Turn(c, vs[0]), r + Hits(c, vs[0]), vs[1..]);
    }
  }

  lemma PartTwoIsSweep(input: string)
    requires StreamInput(input).Some?
    ensures PartTwo(input) == Some(Sweep(START, StreamInput(input).value))
  {
    FoldTwoCountsClicks(START, 0, StreamInput(input).value);
  }

  /** A rotation that ends on 0 also counts in part two, so part two's
      answer is never below part one's. */
  lemma {:induction false} FoldTwoCoversFoldOne(c: int, r: nat, vs: seq<int>)
    requires NonZero(vs)
    ensures FoldTwo(c, r, vs).1 >= FoldOne(c, r, vs).1
    decreases |vs|
  {
    if vs != [] {
      var v, n := vs[0], Turn(c, vs[0]);
      LandingIsHit(c, v);
      assert NonZero(vs[1..]) by {
        forall i | 0 <= i < |vs[1..]| ensures vs[1..][i] != 0 {
          assert vs[1..][i] == vs[i + 1];
        }
      }
      FoldTwoCoversFoldOne(n, r + Hits(c, v), vs[1..]);
      FoldOneMonotone(n, r + (if n == 0 then 1 else 0), r + Hits(c, v), vs[1..]);
    }
  }

  /** A non-zero rotation that ends on zero passes zero at least once. */
  lemma LandingIsHit(c: int, v: int)
    requires v != 0
    ensures Turn(c, v) == 0 ==> Hits(c, v) >= 1
  {
    if Turn(c, v) == 0 && TruncRem(v, SIZE) == 0 {
      assert TruncDiv(v, SIZE) != 0;
      assert Abs(v) >= SIZE;
    }
  }

  lemma {:induction false} FoldOneMonotone(c: int, r: nat, r': nat, vs: seq<int>)
    requires r <= r'
    ensures FoldOne(c, r, vs).1 + (r' - r) == FoldOne(c, r', vs).1
    decreases |vs|
  {
    if vs != [] {
      var n := Turn(c, vs[0]);
      FoldOneMonotone(n, r + (if n == 0 then 1 else 0), r' + (if n == 0 then 1 else 0), vs[1..]);
    }
  }

  /** With no rotation a whole number of turns, the source's count is the
      corrected one. */
  lemma {:induction false} AsWrittenAgrees(c: int, r: nat, vs: seq<int>)
    requires 0 <= c < SIZE && forall i :: 0 <= i < |vs| ==> TruncRem(vs[i], SIZE) != 0
    ensures FoldTwoAsWritten(c, r, vs) == FoldTwo(c, r, vs)
    decreases |vs|
  {
    if vs != [] {
      AsWrittenDiffers(c, vs[0]);
      AsWrittenAgrees(Turn(c, vs[0]), r + Hits(c, vs[0]), vs[1..]);
    }
  }

  lemma PartTwoCoversPartOne(input: string)
    requires StreamInput(input).Some?
    ensures PartTwo(input).value >= PartOne(input).value
  {
    FoldTwoCoversFoldOne(START, 0, StreamInput(input).value);
  }

  lemma OverCountInput()
    ensures StreamInput(Format([-50, 100])) == Some([-50, 100])
  {
    StreamRoundTrip([-50, 100]);
  }

  /** The input of the finding as text. */
  lemma OverCountText()
    ensures Format([-50, 100]) == "L50\nR100\n"
  {
    assert Line(-50) == "L50" by { assert Decimal(50) == "50"; }
    assert Line(100) == "R100" by { assert Decimal(100) == "100"; }
    assert Format([-50, 100]) == Line(-50) + "\n" + (Line(100) + "\n" + "") by {
      assert [-50, 100][1..] == [100] && [100][1..] == [];
    }
  }

  /** The source's pass test also fires when the dial stands on 0 and the
      rotation is a whole number of turns, which is then counted twice: from
      50, `L50` lands on 0 and `R100` clicks through 0 once, but the source
      answers 3 where the clicks give 2. */
  lemma AsWrittenOverCounts()
    ensures PartTwoAsWritten(Format([-50, 100])) == Some(3)
    ensures PartTwo(Format([-50, 100])) == Some(2)
    ensures Sweep(START, [-50, 100]) == 2
  {
    OverCountInput();
    OverCountFolds();
    Answers([-50, 100]);
    FoldTwoCountsClicks(START, 0, [-50, 100]);
  }

  lemma OverCountFolds()
    ensures FoldTwoAsWritten(START, 0, [-50, 100]).1 == 3
    ensures FoldTwo(START, 0, [-50, 100]).1 == 2
  {
    var rest := [-50, 100][1..];
    assert rest == [100] && rest[1..] == [];
    assert Turn(START, -50) == 0 && Turn(0, 100) == 0;
    assert HitsAsWritten(START, -50) == 1 && HitsAsWritten(0, 100) == 2;
    assert Hits(START, -50) == 1 && Hits(0, 100) == 1;
  }

  /** `ps` lists where the dial stops after each rotation of `vs` from `c`. */
  predicate Traces(c: int, vs: seq<int>, ps: seq<int>)
  {
    |ps| == |vs| && forall i :: 0 <= i < |vs| ==> Turn(Before(c, ps, i), vs[i]) == ps[i]
  }

  /** Where the dial stands before rotation `i`. */
  function Before(c: int, ps: seq<int>, i: nat): int
    requires i <= |ps|
  {
    if i == 0 then c else ps[i - 1]
  }

  function ZeroCount(ps: seq<int>): nat
  {
    if ps == [] then 0 else (if ps[0] == 0 then 1 else 0) + ZeroCount(ps[1..])
  }

  function TraceHits(c: int, vs: seq<int>, ps: seq<int>): nat
    requires |ps| == |vs|
    decreases |vs|
  {
    if vs == [] then 0 else Hits(c, vs[0]) + TraceHits(ps[0], vs[1..], ps[1..])
  }

  lemma TracesTail(c: int, vs: seq<int>, ps: seq<int>)
    requires Traces(c, vs, ps) && vs != []
    ensures Turn(c, vs[0]) == ps[0]
    ensures Traces(ps[0], vs[1..], ps[1..])
  {
    assert Turn(Before(c, ps, 0), vs[0]) == ps[0];
    forall i | 0 <= i < |vs| - 1
      ensures Turn(Before(ps[0], ps[1..], i), vs[1..][i]) == ps[1..][i]
    {
      assert Turn(Before(c, ps, i + 1), vs[i + 1]) == ps[i + 1];
    }
  }

  /** Given where a list of rotations stops, part one counts the zeros among
      those stops. */
  lemma {:induction false} FoldOneTrace(c: int, r: nat, vs: seq<int>, ps: seq<int>)
    requires Traces(c, vs, ps)
    ensures FoldOne(c, r, vs).1 == r + ZeroCount(ps)
    decreases |vs|
  {
    if vs != [] {
      TracesTail(c, vs, ps);
      FoldOneTrace(ps[0], r + if ps[0] == 0 then 1 else 0, vs[1..], ps[1..]);
    }
  }

  lemma {:induction false} FoldTwoTrace(c: int, r: nat, vs: seq<int>, ps: seq<int>)
    requires Traces(c, vs, ps)
    ensures FoldTwo(c, r, vs).1 == r + TraceHits(c, vs, ps)
    decreases |vs|
  {
    if vs != [] {
      TracesTail(c, vs, ps);
      FoldTwoTrace(ps[0], r + Hits(c, vs[0]), vs[1..], ps[1..]);
    }
  }

  // ---------------------------------------------------------------- the example

  /** The puzzle's example: ten rotations from 50. */
  const EXAMPLE: seq<int> := [-68, -30, 48, -5, 60, -55, -1, -99, 14, -82]

  lemma ExampleInput()
    ensures StreamInput(Format(EXAMPLE)) == Some(EXAMPLE)
  {
    forall i | 0 <= i < |EXAMPLE|
      ensures EXAMPLE[i] != 0 && -(I64_LIMIT as int) < EXAMPLE[i] < I64_LIMIT
    {
      assert EXAMPLE[i] in EXAMPLE;
    }
    StreamRoundTrip(EXAMPLE);
  }

  /** The dial stops on 0 three times; it points at 0 six times in all. */
  lemma ExampleAnswers()
    ensures PartOne(Format(EXAMPLE)) == Some(3)
    ensures PartTwo(Format(EXAMPLE)) == Some(6)
    ensures PartTwoAsWritten(Format(EXAMPLE)) == Some(6)
  {
    ExampleInput();
    ExampleFoldOne();
    ExampleFoldTwo();
    ExampleFoldTwoAsWritten();
    Answers(EXAMPLE);
  }

  lemma Answers(vs: seq<int>)
    requires StreamInput(Format(vs)) == Some(vs)
    ensures PartOne(Format(vs)) == Some(FoldOne(START, 0, vs).1)
    ensures PartTwo(Format(vs)) == Some(FoldTwo(START, 0, vs).1)
    ensures PartTwoAsWritten(Format(vs)) == Some(FoldTwoAsWritten(START, 0, vs).1)
  {
  }

  /** The dial's positions after each rotation of the example. */
  lemma ExampleTurns()
    ensures Turn(50, -68) == 82 && Turn(82, -30) == 52 && Turn(52, 48) == 0
    ensures Turn(0, -5) == 95 && Turn(95, 60) == 55 && Turn(55, -55) == 0
    ensures Turn(0, -1) == 99 && Turn(99, -99) == 0 && Turn(0, 14) == 14
    ensures Turn(14, -82) == 32
  {
  }

  /** What each rotation of the example adds in part two. */
  lemma ExampleHits()
    ensures Hits(50, -68) == 1 && Hits(82, -30) == 0 && Hits(52, 48) == 1
    ensures Hits(0, -5) == 0 && Hits(95, 60) == 1 && Hits(55, -55) == 1
    ensures Hits(0, -1) == 0 && Hits(99, -99) == 1 && Hits(0, 14) == 0
    ensures Hits(14, -82) == 1
  {
    ExampleTurns();
  }

  /** The positions the example stops at, one per rotation. */
  const EXAMPLE_STOPS: seq<int> := [82, 52, 0, 95, 55, 0, 99, 0, 14, 32]

  lemma ExampleTrace()
    ensures Traces(START, EXAMPLE, EXAMPLE_STOPS)
  {
    ExampleTurns();
  }

  lemma ExampleFoldOne()
    ensures FoldOne(START, 0, EXAMPLE).1 == 3
  {
    ExampleTrace();
    FoldOneTrace(START, 0, EXAMPLE, EXAMPLE_STOPS);
    ExampleZeros();
  }

  lemma ExampleZeros()
    ensures ZeroCount(EXAMPLE_STOPS) == 3
  {
  }

  lemma ExampleFoldTwo()
    ensures FoldTwo(START, 0, EXAMPLE).1 == 6
  {
    ExampleTrace();
    FoldTwoTrace(START, 0, EXAMPLE, EXAMPLE_STOPS);
    ExampleHitTotal();
  }

  lemma ExampleHitTotal()
    ensures TraceHits(START, EXAMPLE, EXAMPLE_STOPS) == 6
  {
    ExampleHits();
  }

  lemma ExampleFoldTwoAsWritten()
    ensures FoldTwoAsWritten(START, 0, EXAMPLE) == FoldTwo(START, 0, EXAMPLE)
  {
    assert forall i :: 0 <= i < |EXAMPLE| ==> TruncRem(EXAMPLE[i], SIZE) != 0 by {
      forall i | 0 <= i < |EXAMPLE| ensures TruncRem(EXAMPLE[i], SIZE) != 0 {
        assert EXAMPLE[i] in EXAMPLE;
      }
    }
    AsWrittenAgrees(START, 0, EXAMPLE);
  }
}
