/** Positions on a grid (mygrid/src/point.rs) and the operators that move a
    position by a direction (mygrid/src/direction.rs). Coordinates are Rust
    `isize` values; plain arithmetic on them is unbounded here, while the
    integer encodings model the casts between widths bit for bit. */
module Points {

  import opened Directions
  import opened Arith
  import opened Text

  datatype Point = Point(line: int, column: int)

  const ORIGIN: Point := Point(0, 0)
  const U128_LIMIT: nat := U64_LIMIT * U64_LIMIT

  predicate InIsize(x: int) { -(I64_LIMIT as int) <= x < I64_LIMIT }

  /** `as usize` from a 64-bit integer: the low 64 bits. */
  function AsUsize(x: int): (r: nat)
    ensures r < U64_LIMIT
    ensures 0 <= x < U64_LIMIT ==> r == x
  {
    x % U64_LIMIT
  }

  /** `as isize` from a 64-bit integer: the low 64 bits read as two's complement. */
  function AsIsize(x: int): (r: int)
    ensures InIsize(r)
    ensures InIsize(x) ==> r == x
  {
    (x + I64_LIMIT) % U64_LIMIT - I64_LIMIT
  }

  /** `as u128` from an `isize`: sign extension, that is the value modulo 2^128. */
  function AsU128(x: int): (r: nat)
    ensures r < U128_LIMIT
  {
    x % U128_LIMIT
  }

  // ---- constructors and moves ----

  /** `new_i32`: both coordinates must be non-negative. */
  function NewI32(line: int, column: int): (p: Point)
    requires 0 <= line && 0 <= column
    ensures p.line >= 0 && p.column >= 0 && AsDirection(p) == Direction(line, column)
  {
    Point(line, column)
  }

  /** `as_direction`: the vector from the origin. */
  function AsDirection(p: Point): (d: Direction)
    ensures d == AsVectorDirection(ORIGIN, p)
  {
    Direction(p.line, p.column)
  }

  /** `as_vector_direction`: the step that leads from `a` to `b`; added to
      `a`'s position it gives `b`'s, and it is zero only from a point to
      itself. */
  function AsVectorDirection(a: Point, b: Point): (d: Direction)
    ensures Add(Direction(a.line, a.column), d) == Direction(b.line, b.column)
    ensures d == ZERO <==> a == b
  {
    Direction(b.line - a.line, b.column - a.column)
  }

  /** `apply_direction`, which `Point + Direction` and `Direction + Point`
      both call. */
  function Apply(p: Point, d: Direction): (r: Point)
    ensures AsVectorDirection(p, r) == d
  {
    Point(p.line + d.vertical, p.column + d.horizontal)
  }

  /** `Point - Direction`: the point one step `d` back. */
  function Sub(p: Point, d: Direction): (r: Point)
    ensures Apply(r, d) == p
    ensures r == Apply(p, Reverse(d))
  {
    Point(p.line - d.vertical, p.column - d.horizontal)
  }

  /** `Point * k`. */
  function ScalePoint(p: Point, k: int): (r: Point)
    ensures AsDirection(r) == Scale(AsDirection(p), k)
  {
    Point(p.line * k, p.column * k)
  }

  lemma ApplyVector(a: Point, b: Point)
    ensures Apply(a, AsVectorDirection(a, b)) == b
    ensures AsVectorDirection(b, a) == Reverse(AsVectorDirection(a, b))
    ensures Sub(b, AsVectorDirection(a, b)) == a
  {
  }

  lemma ApplyAdds(p: Point, d: Direction, e: Direction)
    ensures Apply(Apply(p, d), e) == Apply(p, Add(d, e))
    ensures Sub(Apply(p, d), d) == p
  {
  }

  // ---- comparisons ----

  /** `max`: the componentwise maximum. */
  function Max(a: Point, b: Point): (r: Point)
    ensures r.line >= a.line && r.line >= b.line && (r.line == a.line || r.line == b.line)
    ensures r.column >= a.column && r.column >= b.column && (r.column == a.column || r.column == b.column)
  {
    Point(if a.line >= b.line then a.line else b.line,
          if a.column >= b.column then a.column else b.column)
  }

  /** `min`: the componentwise minimum. */
  function Min(a: Point, b: Point): (r: Point)
    ensures r.line <= a.line && r.line <= b.line && (r.line == a.line || r.line == b.line)
    ensures r.column <= a.column && r.column <= b.column && (r.column == a.column || r.column == b.column)
  {
    Point(if a.line <= b.line then a.line else b.line,
          if a.column <= b.column then a.column else b.column)
  }

  /** `is_aligned`: the two points share a line or a column. */
  function IsAligned(a: Point, b: Point): (r: bool)
    ensures r <==> AsVectorDirection(a, b).vertical == 0 || AsVectorDirection(a, b).horizontal == 0
  {
    a.line == b.line || a.column == b.column
  }

  /** `is_between_inclusive`: `p` lies on the straight horizontal or vertical
      segment from `a` to `b`, ends included; that is, the ends are aligned
      and going through `p` is no detour from `a` to `b`. */
  function IsBetweenInclusive(p: Point, a: Point, b: Point): (r: bool)
    ensures r <==> IsAligned(a, b) && Distance(a, p) + Distance(p, b) == Distance(a, b)
  {
    if !IsAligned(p, a) || !IsAligned(p, b) || !IsAligned(a, b) then false
    else
      var minLine := Min(a, b).line;
      var maxLine := Max(a, b).line;
      var minColumn := Min(a, b).column;
      var maxColumn := Max(a, b).column;
      var betweenLines := minLine <= p.line <= maxLine;
      var betweenColumns := minColumn <= p.column <= maxColumn;
      (a.line == b.line && a.line == p.line && betweenColumns)
      || (a.column == b.column && a.column == p.column && betweenLines)
  }

  function Sign(x: int): int
  {
    if x > 0 then 1 else if x < 0 then -1 else 0
  }

  /** The unit step from `a` towards `b`, and the number of unit steps
      between them. */
  function StepToward(a: Point, b: Point): Direction
  {
    Direction(Sign(b.line - a.line), Sign(b.column - a.column))
  }

  function Distance(a: Point, b: Point): nat
  {
    Abs(b.line - a.line) + Abs(b.column - a.column)
  }

  /** `p` is reached from `a` by walking at most `Distance(a, b)` unit steps
      towards `b`. */
  predicate OnWalk(p: Point, a: Point, b: Point)
  {
    exists k :: 0 <= k <= Distance(a, b) && p == Apply(a, Scale(StepToward(a, b), k))
  }

  /** Walking `k` unit steps along one axis. */
  lemma WalkAlong(a: Point, b: Point, k: int)
    requires a.line == b.line
    ensures Apply(a, Scale(StepToward(a, b), k)) == Point(a.line, a.column + Sign(b.column - a.column) * k)
  {
  }

  lemma WalkDown(a: Point, b: Point, k: int)
    requires a.column == b.column
    ensures Apply(a, Scale(StepToward(a, b), k)) == Point(a.line + Sign(b.line - a.line) * k, a.column)
  {
  }

  /** `Sign(d) * k` for `0 <= k <= |d|` covers exactly the values between 0 and `d`. */
  lemma SignedSteps(d: int, x: int)
    ensures (exists k :: 0 <= k <= Abs(d) && x == Sign(d) * k) <==> (if d >= 0 then 0 <= x <= d else d <= x <= 0)
  {
    if d > 0 && 0 <= x <= d {
      assert 0 <= x <= Abs(d) && x == Sign(d) * x;
    } else if d < 0 && d <= x <= 0 {
      assert 0 <= -x <= Abs(d) && x == Sign(d) * -x;
    } else if d == 0 && x == 0 {
      assert x == Sign(d) * 0;
    }
  }

  lemma BetweenIsOnWalk(p: Point, a: Point, b: Point)
    ensures IsBetweenInclusive(p, a, b) <==> IsAligned(a, b) && OnWalk(p, a, b)
  {
    if a.line == b.line {
      var d := b.column - a.column;
      SignedSteps(d, p.column - a.column);
      forall k ensures Apply(a, Scale(StepToward(a, b), k)) == Point(a.line, a.column + Sign(d) * k) {
        WalkAlong(a, b, k);
      }
      if p.line == a.line && IsBetweenInclusive(p, a, b) {
        var k :| 0 <= k <= Abs(d) && p.column - a.column == Sign(d) * k;
        assert p == Apply(a, Scale(StepToward(a, b), k));
      }
    } else if a.column == b.column {
      var d := b.line - a.line;
      SignedSteps(d, p.line - a.line);
      forall k ensures Apply(a, Scale(StepToward(a, b), k)) == Point(a.line + Sign(d) * k, a.column) {
        WalkDown(a, b, k);
      }
      if p.column == a.column && IsBetweenInclusive(p, a, b) {
        var k :| 0 <= k <= Abs(d) && p.line - a.line == Sign(d) * k;
        assert p == Apply(a, Scale(StepToward(a, b), k));
      }
    }
  }

  lemma BetweenSymmetric(p: Point, a: Point, b: Point)
    ensures IsBetweenInclusive(p, a, b) == IsBetweenInclusive(p, b, a)
    ensures IsBetweenInclusive(a, a, b) <==> IsAligned(a, b)
  {
  }

  // ---- integer encodings ----

  /** `to_usize`: `(line as usize) * width + column as usize`, wrapping at
      2^64 as a release build does. */
  function ToUsize(p: Point, width: nat): (r: nat)
    requires width < U64_LIMIT
    ensures r < U64_LIMIT
    ensures 0 <= p.line && 0 <= p.column && p.line * width + p.column < U64_LIMIT ==> r == p.line * width + p.column
  {
    (AsUsize(p.line) * width + AsUsize(p.column)) % U64_LIMIT
  }

  /** `from_usize`: both operands are cast to `isize` and divided with Rust's
      signed `/` and `%`; a zero width, or the one overflowing quotient,
      panics. */
  function FromUsize(value: nat, width: nat): (r: Point)
    requires value < U64_LIMIT && width < U64_LIMIT
    requires AsIsize(width) != 0
    requires !(AsIsize(value) == -(I64_LIMIT as int) && AsIsize(width) == -1)
    ensures value < I64_LIMIT && 0 < width < I64_LIMIT ==> r == Point(value / width, value % width)
  {
    Point(TruncDiv(AsIsize(value), AsIsize(width)), TruncRem(AsIsize(value), AsIsize(width)))
  }

  lemma UsizeRoundTrip(p: Point, width: nat)
    requires 0 <= p.line && 0 <= p.column < width < I64_LIMIT
    requires p.line * width + p.column < I64_LIMIT
    ensures ToUsize(p, width) == p.line * width + p.column
    ensures FromUsize(ToUsize(p, width), width) == p
  {
    var value := p.line * width + p.column;
    assert ToUsize(p, width) == value;
    DivModUnique(value, width, p.line, p.column);
    assert FromUsize(value, width) == Point(value / width, value % width);
  }

  lemma Divide(value: nat, width: nat) returns (q: nat, m: nat)
    requires width > 0
    ensures q == value / width && m == value % width && value == q * width + m
  {
    q, m := value / width, value % width;
  }

  lemma UsizeRoundTripBack(value: nat, width: nat)
    requires value < I64_LIMIT && 0 < width < I64_LIMIT
    ensures ToUsize(FromUsize(value, width), width) == value
  {
    var q, m := Divide(value, width);
    assert FromUsize(value, width) == Point(q, m);
    assert ToUsize(Point(q, m), width) == q * width + m;
  }

  /** `to_u128`: `((line as u128) << 64) | column as u128`. */
  function ToU128(p: Point): (r: nat)
    requires InIsize(p.line) && InIsize(p.column)
    ensures r < U128_LIMIT
  {
    var high := AsU128(p.line) * U64_LIMIT % U128_LIMIT;
    Pow2Values();
    OrBelow(high, AsU128(p.column), 128);
    BitOr(high, AsU128(p.column))
  }

  /** `from_u128`: the high 64 bits give the line and the low 64 bits the
      column, each read as an `isize`. */
  function FromU128(value: nat): (r: Point)
    requires value < U128_LIMIT
    ensures InIsize(r.line) && InIsize(r.column)
  {
    Point(AsIsize(value / U64_LIMIT), AsIsize(value % U64_LIMIT))
  }

  /** The shifted line occupies the high 64 bits as its low 64 bits. */
  lemma HighHalf(line: int)
    requires InIsize(line)
    ensures AsU128(line) * U64_LIMIT % U128_LIMIT == AsUsize(line) * U64_LIMIT
    ensures AsIsize(AsUsize(line)) == line
  {
    if line >= 0 {
      DivModUnique(line * U64_LIMIT, U128_LIMIT, 0, line * U64_LIMIT);
    } else {
      assert AsU128(line) == U128_LIMIT + line;
      assert AsUsize(line) == U64_LIMIT + line;
      assert AsU128(line) * U64_LIMIT == (U64_LIMIT - 1) * U128_LIMIT + (U64_LIMIT + line) * U64_LIMIT;
      DivModUnique(AsU128(line) * U64_LIMIT, U128_LIMIT, U64_LIMIT - 1, (U64_LIMIT + line) * U64_LIMIT);
    }
  }

  lemma ToU128Value(p: Point)
    requires InIsize(p.line) && 0 <= p.column < I64_LIMIT
    ensures ToU128(p) == AsUsize(p.line) * U64_LIMIT + p.column
  {
    var m := AsUsize(p.line);
    HighHalf(p.line);
    DivModUnique(p.column, U128_LIMIT, 0, p.column);
    Pow2Values();
    OrShifted(m, 64, p.column);
    assert BitOr(m * U64_LIMIT, p.column) == m * U64_LIMIT + p.column;
  }

  /** Any line and a non-negative column survive the encoding. */
  lemma U128RoundTrip(p: Point)
    requires InIsize(p.line) && 0 <= p.column < I64_LIMIT
    ensures FromU128(ToU128(p)) == p
  {
    ToU128Value(p);
    HighHalf(p.line);
    DivModUnique(AsUsize(p.line) * U64_LIMIT + p.column, U64_LIMIT, AsUsize(p.line), p.column);
  }

  /** The cases of the library's own unit tests. */
  lemma PointExamples()
    ensures Max(Point(1, 2), Point(3, 1)) == Point(3, 2)
    ensures Min(Point(1, 2), Point(3, 1)) == Point(1, 1)
    ensures IsAligned(Point(1, 2), Point(1, 3)) && !IsAligned(Point(1, 2), Point(3, 1))
    ensures IsBetweenInclusive(Point(1, 2), Point(0, 2), Point(2, 2))
    ensures IsBetweenInclusive(Point(1, 2), Point(1, 0), Point(1, 4))
    ensures !IsBetweenInclusive(Point(1, 2), Point(0, 1), Point(2, 3))
    ensures !IsBetweenInclusive(Point(1, 2), Point(1, 2), Point(2, 3))
    ensures !IsBetweenInclusive(Point(1, 2), Point(2, 1), Point(3, 2))
    ensures Apply(Point(1, 2), Direction(1, 0)) == Point(2, 2)
  {
  }
}
