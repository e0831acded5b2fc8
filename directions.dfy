/** Steps on a grid (mygrid/src/direction.rs). A direction is a (vertical,
    horizontal) offset: lines grow downwards and columns grow to the right,
    so UP is (-1, 0) and RIGHT is (0, 1). */
module Directions {

  import opened Arith

  datatype Direction = Direction(vertical: int, horizontal: int)

  const UP: Direction := Direction(-1, 0)
  const DOWN: Direction := Direction(1, 0)
  const LEFT: Direction := Direction(0, -1)
  const RIGHT: Direction := Direction(0, 1)
  const ORTHOGONAL: seq<Direction> := [UP, DOWN, LEFT, RIGHT]
  const DIAGONALS: seq<Direction> :=
    [Add(UP, RIGHT), Add(RIGHT, DOWN), Add(DOWN, LEFT), Add(LEFT, UP)]
  /** The eight neighbours, clockwise from UP. */
  const ALL_AROUND: seq<Direction> :=
    [UP, Add(UP, RIGHT), RIGHT, Add(RIGHT, DOWN), DOWN, Add(DOWN, LEFT), LEFT, Add(LEFT, UP)]

  const ZERO: Direction := Direction(0, 0)

  /** Dot product: zero exactly when two directions are perpendicular. */
  function Dot(a: Direction, b: Direction): int
  {
    a.vertical * b.vertical + a.horizontal * b.horizontal
  }

  /** Squared length. */
  function Norm(d: Direction): nat
  {
    d.vertical * d.vertical + d.horizontal * d.horizontal
  }

  /** A unit step: each component in {-1, 0, 1}. */
  predicate IsUnit(d: Direction)
  {
    -1 <= d.vertical <= 1 && -1 <= d.horizontal <= 1
  }

  /** `add_direction`, and the `Direction + Direction` operator: ZERO is
      neutral on either side. */
  function Add(a: Direction, b: Direction): (r: Direction)
    ensures b == ZERO ==> r == a
    ensures a == ZERO ==> r == b
  {
    Direction(a.vertical + b.vertical, a.horizontal + b.horizontal)
  }

  /** A quarter turn clockwise: UP becomes RIGHT, RIGHT becomes DOWN, and
      so on round; a counterclockwise turn undoes it. */
  function RotateClockwise(d: Direction): (r: Direction)
    ensures RotateCounterclockwise(r) == d
    ensures d == UP ==> r == RIGHT
    ensures d == RIGHT ==> r == DOWN
    ensures d == DOWN ==> r == LEFT
    ensures d == LEFT ==> r == UP
  {
    Direction(d.horizontal, -d.vertical)
  }

  /** A quarter turn counterclockwise: UP becomes LEFT, LEFT becomes DOWN,
      and so on round. */
  function RotateCounterclockwise(d: Direction): (r: Direction)
    ensures d == UP ==> r == LEFT
    ensures d == LEFT ==> r == DOWN
    ensures d == DOWN ==> r == RIGHT
    ensures d == RIGHT ==> r == UP
  {
    Direction(-d.horizontal, d.vertical)
  }

  /** The opposite direction, of the same length. */
  function Reverse(d: Direction): (r: Direction)
    ensures Add(d, r) == ZERO
  {
    Direction(-d.vertical, -d.horizontal)
  }

  /** `is_opposite`: the two directions cancel out. */
  function IsOpposite(a: Direction, b: Direction): (r: bool)
    ensures r <==> Add(a, b) == ZERO
  {
    a.vertical == -b.vertical && a.horizontal == -b.horizontal
  }

  /** `is_orthogonal` as the library writes it: true when both directions
      have no vertical part, or both have no horizontal part: a test that
      they lie along the SAME axis (their cross product is zero). */
  function IsOrthogonalAsWritten(a: Direction, b: Direction): (r: bool)
    ensures r ==> a.vertical * b.horizontal == a.horizontal * b.vertical
  {
    (a.vertical == 0 && b.vertical == 0) || (a.horizontal == 0 && b.horizontal == 0)
  }

  /** Two axis-aligned directions are orthogonal when one is horizontal and
      the other vertical. */
  function IsOrthogonal(a: Direction, b: Direction): (r: bool)
    ensures r ==> Dot(a, b) == 0
  {
    (a.vertical == 0 && b.horizontal == 0) || (a.horizontal == 0 && b.vertical == 0)
  }

  /** `Direction * k` for isize, i32 and u32 factors alike: the result is
      zero only for a zero factor or direction, and a factor of -1 reverses
      the direction. */
  function Scale(d: Direction, k: int): (r: Direction)
    ensures r == ZERO <==> k == 0 || d == ZERO
    ensures k == -1 ==> r == Reverse(d)
  {
    Direction(d.vertical * k, d.horizontal * k)
  }

  lemma ScaleNorm(d: Direction, k: int)
    ensures Norm(Scale(d, k)) == k * k * Norm(d)
  {
    calc {
      Norm(Scale(d, k));
      (d.vertical * k) * (d.vertical * k) + (d.horizontal * k) * (d.horizontal * k);
      { assert (d.vertical * k) * (d.vertical * k) == k * k * (d.vertical * d.vertical);
        assert (d.horizontal * k) * (d.horizontal * k) == k * k * (d.horizontal * d.horizontal); }
      k * k * (d.vertical * d.vertical) + k * k * (d.horizontal * d.horizontal);
    }
  }

  /** `n` steps of `d`, one after the other. */
  function Repeat(d: Direction, n: nat): Direction
  {
    if n == 0 then ZERO else Add(Repeat(d, n - 1), d)
  }

  lemma {:induction false} ScaleIsRepeatedAdd(d: Direction, n: nat)
    ensures Scale(d, n) == Repeat(d, n)
  {
    if n > 0 {
      ScaleIsRepeatedAdd(d, n - 1);
      assert d.vertical * n == d.vertical * (n - 1) + d.vertical;
      assert d.horizontal * n == d.horizontal * (n - 1) + d.horizontal;
    }
  }

  /** Adding directions is commutative and associative, ZERO is neutral and
      adding the reverse undoes a step. */
  lemma AddLaws(a: Direction, b: Direction, c: Direction)
    ensures Add(a, b) == Add(b, a)
    ensures Add(Add(a, b), c) == Add(a, Add(b, c))
    ensures Add(a, ZERO) == a
    ensures Add(Add(a, b), Reverse(b)) == a
  {
  }

  lemma RotateFourTimes(d: Direction)
    ensures RotateClockwise(RotateClockwise(RotateClockwise(RotateClockwise(d)))) == d
    ensures RotateClockwise(RotateClockwise(d)) == Reverse(d)
    ensures RotateCounterclockwise(RotateCounterclockwise(RotateCounterclockwise(RotateCounterclockwise(d)))) == d
  {
  }

  /** Quarter turns and reversal keep the length; a quarter turn is
      perpendicular to where it started. */
  lemma RotationIsRigid(d: Direction)
    ensures Dot(d, RotateClockwise(d)) == 0 && Norm(RotateClockwise(d)) == Norm(d)
    ensures Dot(d, RotateCounterclockwise(d)) == 0 && Norm(RotateCounterclockwise(d)) == Norm(d)
    ensures Norm(Reverse(d)) == Norm(d)
  {
  }

  lemma RotationsAreInverse(d: Direction)
    ensures RotateCounterclockwise(RotateClockwise(d)) == d
    ensures RotateClockwise(RotateCounterclockwise(d)) == d
    ensures RotateCounterclockwise(d) == RotateClockwise(RotateClockwise(RotateClockwise(d)))
  {
  }

  lemma ReverseIsOpposite(d: Direction)
    ensures IsOpposite(d, Reverse(d)) && Reverse(Reverse(d)) == d
    ensures forall e :: IsOpposite(d, e) <==> e == Reverse(d)
  {
  }

  // ---- the one-byte encoding ----

  /** A byte value. */
  newtype u8 = x: int | 0 <= x < 256

  /** `to_u8`: `((vertical + 1) << 2) as u8 | (horizontal + 1) as u8`. The
      casts keep the low eight bits, which `%` (never negative) computes. */
  function ToU8(d: Direction): (r: u8)
    ensures IsUnit(d) ==> r as int == 4 * (d.vertical + 1) + (d.horizontal + 1)
  {
    var high := (d.vertical + 1) * 4 % 256;
    var low := (d.horizontal + 1) % 256;
    Pow2Values();
    OrBelow(high, low, 8);
    if IsUnit(d) then
      DivModUnique((d.vertical + 1) * 4, 256, 0, (d.vertical + 1) * 4);
      DivModUnique(d.horizontal + 1, 256, 0, d.horizontal + 1);
      OrShifted(d.vertical + 1, 2, low);
      BitOr(high, low) as u8
    else
      BitOr(high, low) as u8
  }

  /** `from_u8`: the high six bits give the vertical part, the low two bits
      the horizontal part, each shifted down by one. */
  function FromU8(b: u8): (r: Direction)
    ensures r.vertical == b as int / 4 - 1 && -1 <= r.horizontal <= 2
  {
    Direction((b as int / 4) - 1, (b as int % 4) - 1)
  }

  lemma U8RoundTrip(d: Direction)
    requires IsUnit(d)
    ensures FromU8(ToU8(d)) == d
  {
  }

  /** Every byte is the encoding of the direction it decodes to. */
  lemma {:induction false} U8Surjective(b: u8)
    ensures ToU8(FromU8(b)) == b
  {
    var d := FromU8(b);
    var x := b as int / 4;
    var y := b as int % 4;
    assert (d.vertical + 1) * 4 % 256 == x * 4;
    assert (d.horizontal + 1) % 256 == y;
    Pow2Values();
    OrShifted(x, 2, y);
  }

  lemma U8Injective(a: Direction, b: Direction)
    requires IsUnit(a) && IsUnit(b) && ToU8(a) == ToU8(b)
    ensures a == b
  {
    U8RoundTrip(a);
    U8RoundTrip(b);
  }

  // ---- parsing ----

  predicate IsDirectionChar(c: char)
  {
    c in "^UvD<L>R"
  }

  /** `From<char>`: arrows and initials name the four unit directions; any
      other character is a programming error in the source. */
  function FromChar(c: char): (r: Direction)
    requires IsDirectionChar(c)
    ensures r in ORTHOGONAL
    ensures r == UP <==> c == '^' || c == 'U'
    ensures r == DOWN <==> c == 'v' || c == 'D'
    ensures r == LEFT <==> c == '<' || c == 'L'
    ensures r == RIGHT <==> c == '>' || c == 'R'
  {
    match c
    case '^' => UP
    case 'U' => UP
    case 'v' => DOWN
    case 'D' => DOWN
    case '<' => LEFT
    case 'L' => LEFT
    case '>' => RIGHT
    case 'R' => RIGHT
  }

  /** `From<&str>`: only the first character counts. */
  function FromStr(s: string): (r: Direction)
    requires |s| > 0 && IsDirectionChar(s[0])
    ensures r in ORTHOGONAL && r == FromChar(s[0])
  {
    FromChar(s[0])
  }

  // ---- the neighbourhood tables ----

  lemma AllAroundNeighbours()
    ensures |ALL_AROUND| == 8
    ensures forall i, j :: 0 <= i < j < 8 ==> ALL_AROUND[i] != ALL_AROUND[j]
    ensures forall d :: d in ALL_AROUND <==> IsUnit(d) && d != ZERO
  {
  }

  /** The eight steps, clockwise from straight up. */
  lemma AllAroundValues()
    ensures ALL_AROUND == [Direction(-1, 0), Direction(-1, 1), Direction(0, 1), Direction(1, 1),
                           Direction(1, 0), Direction(1, -1), Direction(0, -1), Direction(-1, -1)]
  {
  }

  /** Each entry is a quarter turn clockwise from the entry two places earlier,
      and the diagonals sit between their two neighbours. */
  lemma AllAroundClockwise()
    ensures forall i :: 0 <= i < 8 ==> ALL_AROUND[(i + 2) % 8] == RotateClockwise(ALL_AROUND[i])
    ensures forall i :: 0 <= i < 4 ==> ALL_AROUND[2 * i + 1] == Add(ALL_AROUND[2 * i], ALL_AROUND[(2 * i + 2) % 8])
    ensures DIAGONALS == [ALL_AROUND[1], ALL_AROUND[3], ALL_AROUND[5], ALL_AROUND[7]]
  {
    forall i | 0 <= i < 8
      ensures ALL_AROUND[(i + 2) % 8] == RotateClockwise(ALL_AROUND[i])
    {
      if i < 6 {
        assert (i + 2) % 8 == i + 2;
      } else {
        assert (i + 2) % 8 == i - 6;
      }
    }
    forall i | 0 <= i < 4
      ensures ALL_AROUND[2 * i + 1] == Add(ALL_AROUND[2 * i], ALL_AROUND[(2 * i + 2) % 8])
    {
      if i < 3 {
        assert (2 * i + 2) % 8 == 2 * i + 2;
      } else {
        assert (2 * i + 2) % 8 == 0;
      }
    }
  }

  lemma OrthogonalIsPerpendicular()
    ensures forall a <- ORTHOGONAL, b <- ORTHOGONAL :: IsOrthogonal(a, b) <==> Dot(a, b) == 0
  {
  }

  /** The axis test against perpendicularity: UP and DOWN share an axis and
      are reported orthogonal, UP and RIGHT are perpendicular and are not. */
  lemma OrthogonalAsWrittenMissesPerpendicular()
    ensures IsOrthogonalAsWritten(UP, DOWN) && Dot(UP, DOWN) != 0
    ensures !IsOrthogonalAsWritten(UP, RIGHT) && Dot(UP, RIGHT) == 0
    ensures IsOrthogonal(UP, RIGHT) && !IsOrthogonal(UP, DOWN)
  {
  }

  lemma RotationIsOrthogonal(d: Direction)
    requires d in ORTHOGONAL
    ensures IsOrthogonal(d, RotateClockwise(d)) && IsOrthogonal(d, RotateCounterclockwise(d))
    ensures !IsOrthogonal(d, Reverse(d)) && !IsOrthogonal(d, d)
  {
    assert d == UP || d == DOWN || d == LEFT || d == RIGHT;
    AxisTurns(d.vertical, d.horizontal);
  }

  /** The quarter turns of a non-zero axis step, on its two components. */
  lemma AxisTurns(v: int, h: int)
    requires (v == 0) != (h == 0)
    ensures IsOrthogonal(Direction(v, h), Direction(h, -v)) && IsOrthogonal(Direction(v, h), Direction(-h, v))
    ensures !IsOrthogonal(Direction(v, h), Direction(-v, -h)) && !IsOrthogonal(Direction(v, h), Direction(v, h))
  {
  }

  /** The cases of the library's own unit tests. */
  lemma DirectionExamples()
    ensures RotateClockwise(Direction(1, 0)) == Direction(0, -1)
    ensures RotateCounterclockwise(Direction(1, 0)) == Direction(0, 1)
    ensures FromChar('U') == Direction(-1, 0) && FromChar('D') == Direction(1, 0)
    ensures FromChar('L') == Direction(0, -1) && FromChar('R') == Direction(0, 1)
    ensures Scale(Direction(2, 0), 2) == Direction(4, 0)
  {
  }

  /** A direction held in a mutable place, for the `_mut` forms. */
  class Heading {
    var vertical: int
    var horizontal: int

    function Value(): Direction
      reads this
    {
      Direction(vertical, horizontal)
    }

    constructor (d: Direction)
      ensures Value() == d
    {
      vertical := d.vertical;
      horizontal := d.horizontal;
    }

    /** `rotate_clockwise_mut`. */
    method RotateClockwiseInPlace()
      modifies this
      ensures Value() == RotateClockwise(old(Value()))
    {
      horizontal, vertical := -vertical, horizontal;
    }

    /** `rotate_counterclockwise_mut`. */
    method RotateCounterclockwiseInPlace()
      modifies this
      ensures Value() == RotateCounterclockwise(old(Value()))
    {
      horizontal, vertical := vertical, -horizontal;
    }

    /** `reverse_mut`. */
    method ReverseInPlace()
      modifies this
      ensures Value() == Reverse(old(Value()))
    {
      horizontal, vertical := -horizontal, -vertical;
    }

    /** `add_direction_mut`. */
    method AddInPlace(other: Direction)
      modifies this
      ensures Value() == Add(old(Value()), other)
    {
      vertical := vertical + other.vertical;
      horizontal := horizontal + other.horizontal;
    }
  }
}
