/** Facts about multiplication and Euclidean division on naturals that the
    solver does not find alone. */
module Arith {

  lemma MulLe(x: nat, y: nat, p: nat)
    requires x <= y
    ensures x * p <= y * p
  {
    assert y * p == x * p + (y - x) * p;
  }

  lemma MulLess(x: nat, y: nat, p: nat)
    requires x * p < y * p
    ensures x < y
  {
    if x >= y {
      MulLe(y, x, p);
    }
  }

  /** Bounds on a quotient from bounds on the dividend. */
  lemma DivBetween(n: nat, p: nat, a: nat, b: nat)
    requires p >= 1 && a * p <= n < b * p
    ensures a <= n / p < b
  {
    var q := n / p;
    assert q * p <= n < (q + 1) * p by {
      assert n == q * p + n % p;
    }
    MulLess(a, q + 1, p);
    MulLess(q, b, p);
  }

  lemma DivExact(a: nat, b: nat, q: nat)
    requires b >= 1 && a == b * q
    ensures a % b == 0 && a / b == q
  {
    var d, r := a / b, a % b;
    assert b * q == b * d + r;
    assert b * (q - d) == r;
    if q - d >= 1 {
      MulLe(1, q - d, b);
    } else if q - d <= -1 {
      MulLe(1, d - q, b);
    }
  }

  lemma DivModUnique(n: nat, p: nat, q: nat, r: nat)
    requires r < p && n == q * p + r
    ensures n / p == q && n % p == r
  {
    var d, m := n / p, n % p;
    assert q * p + r == d * p + m;
    assert (d + 1) * p == d * p + p && (q + 1) * p == q * p + p;
    if q > d {
      MulLe(d + 1, q, p);
    } else if q < d {
      MulLe(q + 1, d, p);
    }
  }

  /** Whole rows of `p` cells fit in `n` cells `n / p` times. */
  lemma WholeRows(n: nat, p: nat)
    requires p >= 1
    ensures (n / p) * p <= n
  {
    assert n == (n / p) * p + n % p;
  }

  /** Ten to the power `k`. */
  function Pow10(k: nat): (p: nat)
    ensures p >= 1
  {
    if k == 0 then 1 else 10 * Pow10(k - 1)
  }

  function Abs(v: int): nat { if v < 0 then -v else v }

  /** The sum of a sequence of naturals, first element first. */
  function Sum(ns: seq<nat>): nat
  {
    if ns == [] then 0 else ns[0] + Sum(ns[1..])
  }

  /** The sum read from the other end: the last element added to the rest. */
  lemma {:induction false} SumSnoc(xs: seq<nat>, x: nat)
    ensures Sum(xs + [x]) == Sum(xs) + x
  {
    if xs != [] {
      assert (xs + [x])[1..] == xs[1..] + [x];
      SumSnoc(xs[1..], x);
    }
  }

  lemma SumLast(s: seq<nat>)
    requires s != []
    ensures Sum(s) == Sum(s[..|s| - 1]) + s[|s| - 1]
  {
    assert s == s[..|s| - 1] + [s[|s| - 1]];
    SumSnoc(s[..|s| - 1], s[|s| - 1]);
  }

  /** Rust's `/` on signed integers: rounds toward zero. */
  function TruncDiv(a: int, b: int): (q: int)
    requires b != 0
    ensures a >= 0 && b > 0 ==> q == a / b
  {
    if (a >= 0) == (b > 0) then Abs(a) / Abs(b) else -(Abs(a) / Abs(b))
  }

  /** Rust's `%` on signed integers: the remainder takes the sign of `a`. */
  function TruncRem(a: int, b: int): (r: int)
    requires b != 0
    ensures a >= 0 && b > 0 ==> r == a % b
    ensures Abs(r) < Abs(b)
    ensures a >= 0 ==> r >= 0
    ensures a < 0 ==> r <= 0
  {
    if a >= 0 then Abs(a) % Abs(b) else -(Abs(a) % Abs(b))
  }

  /** Quotient and remainder recompose the dividend, as Rust guarantees. */
  lemma TruncDivRem(a: int, b: int)
    requires b != 0
    ensures a == b * TruncDiv(a, b) + TruncRem(a, b)
  {
    var q, m := Abs(a) / Abs(b), Abs(a) % Abs(b);
    assert Abs(a) == Abs(b) * q + m;
    if a >= 0 && b > 0 {
    } else if a >= 0 {
      assert b * -q == Abs(b) * q;
    } else if b > 0 {
      assert b * -q == -(Abs(b) * q);
    } else {
      assert b * q == -(Abs(b) * q);
    }
  }

  /** Two to the power `e`. */
  function Pow2(e: nat): (r: nat)
    ensures r >= 1
  {
    if e == 0 then 1 else 2 * Pow2(e - 1)
  }

  lemma {:induction false} Pow2Add(a: nat, b: nat)
    ensures Pow2(a + b) == Pow2(a) * Pow2(b)
  {
    if a > 0 {
      Pow2Add(a - 1, b);
      assert Pow2(a + b) == 2 * Pow2(a - 1 + b);
    }
  }

  /** The powers used by the byte, word and double-word encodings. */
  lemma Pow2Values()
    ensures Pow2(2) == 4 && Pow2(8) == 0x100
    ensures Pow2(64) == 0x1_0000_0000_0000_0000
    ensures Pow2(128) == 0x1_0000_0000_0000_0000 * 0x1_0000_0000_0000_0000
  {
    assert Pow2(4) == 16;
    Pow2Add(4, 4);
    assert Pow2(8) == 0x100;
    Pow2Add(8, 8);
    assert Pow2(16) == 0x1_0000;
    Pow2Add(16, 16);
    assert Pow2(32) == 0x1_0000_0000;
    Pow2Add(32, 32);
    assert Pow2(64) == 0x1_0000_0000_0000_0000;
    Pow2Add(64, 64);
  }

  /** Bitwise or of two naturals, computed from the lowest bit up. */
  function BitOr(a: nat, b: nat): nat
    decreases a + b
  {
    if a == 0 then b
    else if b == 0 then a
    else 2 * BitOr(a / 2, b / 2) + (if a % 2 == 1 || b % 2 == 1 then 1 else 0)
  }

  /** Or-ing a value below `2^e` into a multiple of `2^e` just adds it. */
  lemma {:induction false} OrShifted(q: nat, e: nat, y: nat)
    requires y < Pow2(e)
    ensures BitOr(q * Pow2(e), y) == q * Pow2(e) + y
  {
    if e > 0 && q != 0 && y != 0 {
      var m := Pow2(e - 1);
      assert q * Pow2(e) == 2 * (q * m);
      assert (q * Pow2(e)) / 2 == q * m && (q * Pow2(e)) % 2 == 0;
      OrShifted(q, e - 1, y / 2);
    }
  }

  /** Or-ing two values below `2^e` stays below `2^e`. */
  lemma {:induction false} OrBelow(a: nat, b: nat, e: nat)
    requires a < Pow2(e) && b < Pow2(e)
    ensures BitOr(a, b) < Pow2(e)
  {
    if a != 0 && b != 0 {
      OrBelow(a / 2, b / 2, e - 1);
    }
  }

  /** Bit `i` of `m`, counting from the least significant. */
  predicate Bit(m: nat, i: nat)
  {
    if i == 0 then m % 2 == 1 else Bit(m / 2, i - 1)
  }

  lemma {:induction false} BitOfZero(i: nat)
    ensures !Bit(0, i)
  {
    if i > 0 {
      BitOfZero(i - 1);
    }
  }

  /** A power of two has exactly one bit set. */
  lemma {:induction false} BitOfPow2(e: nat, i: nat)
    ensures Bit(Pow2(e), i) <==> i == e
  {
    if i > 0 {
      if e == 0 {
        BitOfZero(i - 1);
      } else {
        assert Pow2(e) / 2 == Pow2(e - 1);
        BitOfPow2(e - 1, i - 1);
      }
    }
  }

  lemma {:induction false} BitOfOr(a: nat, b: nat, i: nat)
    ensures Bit(BitOr(a, b), i) <==> Bit(a, i) || Bit(b, i)
    decreases i
  {
    if a == 0 {
      BitOfZero(i);
    } else if b == 0 {
      BitOfZero(i);
    } else {
      var c := if a % 2 == 1 || b % 2 == 1 then 1 else 0;
      var x := BitOr(a / 2, b / 2);
      assert BitOr(a, b) == 2 * x + c;
      assert (2 * x + c) % 2 == c && (2 * x + c) / 2 == x;
      if i > 0 {
        BitOfOr(a / 2, b / 2, i - 1);
      }
    }
  }

  /** Bitwise exclusive or of two naturals, computed from the lowest bit up. */
  function BitXor(a: nat, b: nat): nat
    decreases a + b
  {
    if a == 0 then b
    else if b == 0 then a
    else 2 * BitXor(a / 2, b / 2) + (if a % 2 != b % 2 then 1 else 0)
  }

  /** Exclusive or of two values below `2^e` stays below `2^e`. */
  lemma {:induction false} XorBelow(a: nat, b: nat, e: nat)
    requires a < Pow2(e) && b < Pow2(e)
    ensures BitXor(a, b) < Pow2(e)
  {
    if a != 0 && b != 0 {
      XorBelow(a / 2, b / 2, e - 1);
    }
  }

  lemma {:induction false} BitOfXor(a: nat, b: nat, i: nat)
    ensures Bit(BitXor(a, b), i) <==> Bit(a, i) != Bit(b, i)
    decreases i
  {
    if a == 0 {
      BitOfZero(i);
    } else if b == 0 {
      BitOfZero(i);
    } else {
      var c := if a % 2 != b % 2 then 1 else 0;
      var x := BitXor(a / 2, b / 2);
      assert BitXor(a, b) == 2 * x + c;
      assert (2 * x + c) % 2 == c && (2 * x + c) / 2 == x;
      if i > 0 {
        BitOfXor(a / 2, b / 2, i - 1);
      }
    }
  }

  lemma {:induction false} OrSymmetric(a: nat, b: nat)
    ensures BitOr(a, b) == BitOr(b, a)
    decreases a + b
  {
    if a != 0 && b != 0 {
      OrSymmetric(a / 2, b / 2);
    }
  }

  lemma {:induction false} Pow2Monotone(a: nat, b: nat)
    requires a <= b
    ensures Pow2(a) <= Pow2(b)
  {
    if a < b {
      Pow2Monotone(a, b - 1);
    }
  }

  lemma Pow2Below(a: nat, b: nat)
    requires a < b
    ensures Pow2(a) < Pow2(b)
  {
    Pow2Monotone(a + 1, b);
  }

  /** A set of naturals below `n` has at most `n` elements. */
  lemma {:induction false} CardBelow(s: set<nat>, n: nat)
    requires forall x <- s :: x < n
    ensures |s| <= n
  {
    if n == 0 {
      assert s == {};
    } else {
      var rest := s - {n - 1};
      CardBelow(rest, n - 1);
      assert s <= rest + {n - 1};
    }
  }
}
