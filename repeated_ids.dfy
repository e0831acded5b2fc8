/** Invalid product ids (src/bin/02.rs): the input lists inclusive id
    ranges; part one sums the ids whose decimal digits are one block written
    twice, part two the ids that are one block written two or more times. */
module RepeatedIds {
  import opened Text
  import opened Arith

  // ---------------------------------------------------------------- input

  /** One `start-end` token. The source takes the first two pieces of the
      split on `-` and ignores any further piece; a missing piece or a
      piece that is not a `u64` makes it panic. */
  function ParseRange(token: string): (r: Option<(nat, nat)>)
    ensures r.Some? ==> r.value.0 < U64_LIMIT && r.value.1 < U64_LIMIT
    ensures r.Some? ==> '-' in token
  {
    var pieces := Split(token, '-');
    if |pieces| < 2 then None
    else
      match (ParseU64(pieces[0]), ParseU64(pieces[1]))
      case (Some(lo), Some(hi)) => Some((lo, hi))
      case _ => None
  }

  /** The comma-separated tokens, trimmed, the empty ones skipped. */
  function Ranges(tokens: seq<string>): (r: Option<seq<(nat, nat)>>)
    ensures r.Some? ==> |r.value| <= |tokens|
    ensures r.Some? <==> forall i :: 0 <= i < |tokens| && Trim(tokens[i]) != [] ==> ParseRange(Trim(tokens[i])).Some?
  {
    if tokens == [] then Some([])
    else
      var t := Trim(tokens[0]);
      var rest := Ranges(tokens[1..]);
      assert rest.None? ==> exists i :: 1 <= i < |tokens| && Trim(tokens[i]) != [] && ParseRange(Trim(tokens[i])).None? by {
        if rest.None? {
          var j :| 0 <= j < |tokens[1..]| && Trim(tokens[1..][j]) != [] && ParseRange(Trim(tokens[1..][j])).None?;
          assert tokens[1..][j] == tokens[j + 1];
        }
      }
      if t == [] then rest
      else
        match (ParseRange(t), rest)
        case (Some(range), Some(rs)) => Some([range] + rs)
        case _ => None
  }

  function StreamInput(input: string): Option<seq<(nat, nat)>>
  {
    Ranges(Split(input, ','))
  }

  /** A range written out as `start-end` reads back as itself. */
  lemma ParseRangeRoundTrip(lo: nat, hi: nat)
    requires lo < U64_LIMIT && hi < U64_LIMIT
    ensures ParseRange(Decimal(lo) + "-" + Decimal(hi)) == Some((lo, hi))
  {
    var a, b := Decimal(lo), Decimal(hi);
    var s := a + "-" + b;
    assert '-' !in a by {
      forall i | 0 <= i < |a| ensures a[i] != '-' {
        assert a[i] in a;
      }
    }
    assert '-' !in b by {
      forall i | 0 <= i < |b| ensures b[i] != '-' {
        assert b[i] in b;
      }
    }
    assert Find(s, '-') == Some(|a|) by {
      assert s[|a|] == '-' && s[..|a|] == a;
    }
    assert s[..|a|] == a && s[|a| + 1..] == b;
    assert Split(b, '-') == [b];
    assert Split(s, '-') == [a, b];
    DecimalRoundTrip(lo);
    DecimalRoundTrip(hi);
    assert IsDigit(a[0]) && IsDigit(b[0]);
  }

  // ---------------------------------------------------------------- digits

  /** The source's `POW10` table: the powers of ten that fit its 16 slots. */
  const POW10: seq<nat> := [
    1, 10, 100, 1_000, 10_000, 100_000, 1_000_000, 10_000_000, 100_000_000,
    1_000_000_000, 10_000_000_000, 100_000_000_000, 1_000_000_000_000,
    10_000_000_000_000, 100_000_000_000_000, 1_000_000_000_000_000]

  lemma Pow10Table()
    ensures |POW10| == 16
    ensures forall i :: 0 <= i < 16 ==> POW10[i] == Pow10(i)
  {
    assert Pow10(0) == 1 && Pow10(1) == 10 && Pow10(2) == 100 && Pow10(3) == 1_000;
    assert Pow10(4) == 10_000 && Pow10(5) == 100_000 && Pow10(6) == 1_000_000;
    assert Pow10(7) == 10_000_000 && Pow10(8) == 100_000_000;
    assert Pow10(9) == 1_000_000_000 && Pow10(10) == 10_000_000_000;
    assert Pow10(11) == 100_000_000_000 && Pow10(12) == 1_000_000_000_000;
    assert Pow10(13) == 10_000_000_000_000 && Pow10(14) == 100_000_000_000_000;
    assert Pow10(15) == 1_000_000_000_000_000;
  }

  lemma {:induction false} Pow10Add(a: nat, b: nat)
    ensures Pow10(a + b) == Pow10(a) * Pow10(b)
  {
    if a > 0 {
      Pow10Add(a - 1, b);
    }
  }

  lemma {:induction false} Pow10Monotone(a: nat, b: nat)
    requires a <= b
    ensures Pow10(a) <= Pow10(b)
  {
    if a < b {
      Pow10Monotone(a, b - 1);
    }
  }

  /** `ilog10(n) + 1`, the number of decimal digits; `ilog10` panics on 0. */
  function Digits(n: nat): (d: nat)
    requires n >= 1
    ensures d >= 1 && Pow10(d - 1) <= n < Pow10(d)
  {
    if n < 10 then 1 else Digits(n / 10) + 1
  }

  /** Part two reads `POW10[len]`: inside the table exactly when the id is
      below `10^15`. */
  lemma TableCoversPartTwo(n: nat)
    requires n >= 1
    ensures Digits(n) < |POW10| <==> n < Pow10(15)
  {
    Pow10Table();
    if Digits(n) < 16 {
      Pow10Monotone(Digits(n), 15);
    } else {
      Pow10Monotone(15, Digits(n) - 1);
    }
  }

  /** Part one reads `POW10[d / 2]`, always inside the table for a `u64`. */
  lemma TableCoversPartOne(n: nat)
    requires 1 <= n < U64_LIMIT
    ensures Digits(n) / 2 < |POW10|
  {
    Pow10Table();
    assert Pow10(20) == 100_000_000_000_000_000_000;
    if Digits(n) > 20 {
      Pow10Monotone(20, Digits(n) - 1);
    }
  }

  /** The digit count is the only `d` with `10^(d-1) <= n < 10^d`. */
  lemma DigitsUnique(n: nat, d: nat)
    requires d >= 1 && Pow10(d - 1) <= n < Pow10(d)
    ensures Digits(n) == d
  {
    var e := Digits(n);
    if e < d {
      Pow10Monotone(e, d - 1);
    } else if e > d {
      Pow10Monotone(d, e - 1);
    }
  }

  // ---------------------------------------------------------------- blocks

  /** `x` is a block of exactly `l` digits: no leading zero. */
  predicate IsBlock(x: nat, l: nat)
  {
    l >= 1 && Pow10(l - 1) <= x < Pow10(l)
  }

  /** The number whose digits are the `l` digits of `x` written `k` times. */
  function Repeat(x: nat, l: nat, k: nat): nat
  {
    if k == 0 then 0 else Repeat(x, l, k - 1) * Pow10(l) + x
  }

  /** Reference for part one: an id made of one block written twice. */
  ghost predicate Doubled(n: nat)
  {
    exists x, l :: IsBlock(x, l) && n == Repeat(x, l, 2)
  }

  /** Reference for part two: an id made of one block written at least twice. */
  ghost predicate Repeated(n: nat)
  {
    exists x, l, k :: k >= 2 && IsBlock(x, l) && n == Repeat(x, l, k)
  }

  /** `10^l` raised to the `k`-th power. */
  function Shift(l: nat, k: nat): (p: nat)
    ensures p >= 1
  {
    if k == 0 then 1 else Shift(l, k - 1) * Pow10(l)
  }

  lemma {:induction false} ShiftIsPow10(l: nat, k: nat)
    ensures Shift(l, k) == Pow10(l * k)
  {
    if k > 0 {
      ShiftIsPow10(l, k - 1);
      assert l * k == l * (k - 1) + l;
      Pow10Add(l * (k - 1), l);
    }
  }

  lemma Ring(x: int, q: int, r: int, p: int)
    ensures (x * q + r) * p + x == x * (q * p) + (r * p + x)
  {
  }

  lemma {:induction false} RepeatFront(x: nat, l: nat, k: nat)
    ensures Repeat(x, l, k + 1) == x * Shift(l, k) + Repeat(x, l, k)
  {
    if k > 0 {
      RepeatFront(x, l, k - 1);
      Ring(x, Shift(l, k - 1), Repeat(x, l, k - 1), Pow10(l));
    }
  }

  /** Bounds of a block written `k` times: `k` blocks of `l` digits. */
  lemma {:induction false} RepeatBounds(x: nat, l: nat, k: nat)
    requires IsBlock(x, l) && k >= 1
    ensures Pow10(l - 1) * Shift(l, k - 1) <= Repeat(x, l, k) < Shift(l, k)
  {
    if k > 1 {
      RepeatBounds(x, l, k - 1);
      RepeatFront(x, l, k - 1);
      var p := Shift(l, k - 1);
      MulLe(Pow10(l - 1), x, p);
      MulLe(x + 1, Pow10(l), p);
      assert (x + 1) * p == x * p + p;
      assert Shift(l, k) == p * Pow10(l);
    }
  }

  /** A block written `k` times has exactly `l * k` digits. */
  lemma RepeatDigits(x: nat, l: nat, k: nat)
    requires IsBlock(x, l) && k >= 1
    ensures Pow10(l * k - 1) <= Repeat(x, l, k) < Pow10(l * k)
  {
    RepeatBounds(x, l, k);
    ShiftIsPow10(l, k - 1);
    ShiftIsPow10(l, k);
    Product(l, k);
    Pow10Add(l - 1, l * (k - 1));
  }

  lemma Product(l: nat, k: nat)
    requires l >= 1 && k >= 1
    ensures l * k >= l && l * k - 1 == (l - 1) + l * (k - 1) && l * k - l == l * (k - 1)
  {
    assert l * k == l * (k - 1) + l;
  }

  lemma {:induction false} RepeatScale(x: nat, l: nat, k: nat)
    ensures Repeat(x, l, k) == x * Repeat(1, l, k)
  {
    if k > 0 {
      RepeatScale(x, l, k - 1);
      Scale(x, Repeat(1, l, k - 1), Pow10(l));
    }
  }

  lemma Scale(x: int, r: int, p: int)
    ensures x * (r * p + 1) == (x * r) * p + x
  {
  }

  /** The geometric series behind the source's multiplier:
      `10^(l*k) - 1 = (10^l - 1) * 1..1` with `k` ones spaced `l` apart. */
  lemma {:induction false} Geometric(l: nat, k: nat)
    ensures Shift(l, k) - 1 == (Pow10(l) - 1) * Repeat(1, l, k)
  {
    if k > 0 {
      Geometric(l, k - 1);
      GeometricStep(Shift(l, k - 1), Pow10(l), Repeat(1, l, k - 1));
    }
  }

  lemma GeometricStep(s: int, p: int, r: int)
    requires s - 1 == (p - 1) * r
    ensures s * p - 1 == (p - 1) * (r * p + 1)
  {
    assert (p - 1) * (r * p + 1) == ((p - 1) * r) * p + (p - 1);
  }

  /** The multiplier's division is exact when `l` divides the length, and it
      gives the number made of `len / l` ones spaced `l` apart. */
  lemma MultiplierExact(l: nat, len: nat)
    requires l >= 1 && len % l == 0
    ensures (Pow10(len) - 1) % (Pow10(l) - 1) == 0
    ensures (Pow10(len) - 1) / (Pow10(l) - 1) == Repeat(1, l, len / l)
  {
    var k := len / l;
    assert len == l * k;
    Geometric(l, k);
    ShiftIsPow10(l, k);
    assert Pow10(l) >= 10 by { Pow10Monotone(1, l); }
    DivExact(Pow10(len) - 1, Pow10(l) - 1, Repeat(1, l, k));
  }

  // ---------------------------------------------------------------- part one

  /** Part one's test: with `d` digits, the number above `10^(d/2)` equals
      the number below it. */
  predicate HalvesMatch(n: nat)
    requires n >= 1
  {
    var h := Digits(n) / 2;
    n / Pow10(h) == n % Pow10(h)
  }

  lemma BelowSquare(q: nat, p: nat)
    requires q < p
    ensures q * p + q < p * p
  {
    MulLe(q + 1, p, p);
    assert (q + 1) * p == q * p + p;
  }

  lemma HalvesToDoubled(n: nat)
    requires n >= 1 && HalvesMatch(n)
    ensures var h := Digits(n) / 2; IsBlock(n / Pow10(h), h) && n == Repeat(n / Pow10(h), h, 2)
  {
    var d := Digits(n);
    var h := d / 2;
    var p := Pow10(h);
    var q := n / p;
    assert n == q * p + q;
    Pow10Add(h, h);
    if d % 2 == 1 {
      Pow10Monotone(h + h, d - 1);
      BelowSquare(q, p);
      assert false;
    }
    Pow10Add(h - 1, h);
    assert Pow10(d - 1) == Pow10(h - 1) * p;
    DivBetween(n, p, Pow10(h - 1), p);
    RepeatTwice(q, h);
  }

  lemma RepeatTwice(x: nat, l: nat)
    ensures Repeat(x, l, 2) == x * Pow10(l) + x
  {
    assert Repeat(x, l, 1) == x;
  }

  lemma DoubledToHalves(n: nat, x: nat, l: nat)
    requires IsBlock(x, l) && n == Repeat(x, l, 2)
    ensures n >= 1 && HalvesMatch(n)
  {
    RepeatDigits(x, l, 2);
    DigitsUnique(n, l * 2);
    var p := Pow10(l);
    RepeatTwice(x, l);
    DivModUnique(n, p, x, x);
  }

  /** The test keeps exactly the ids made of one block written twice. */
  lemma HalvesMatchIsDoubled(n: nat)
    requires n >= 1
    ensures HalvesMatch(n) <==> Doubled(n)
  {
    if HalvesMatch(n) {
      HalvesToDoubled(n);
    }
    if Doubled(n) {
      var x, l :| IsBlock(x, l) && n == Repeat(x, l, 2);
      DoubledToHalves(n, x, l);
    }
  }

  // ---------------------------------------------------------------- part two

  /** One candidate block length `l` for an id of `len` digits: `l` divides
      `len`, and the leading `l` digits times the multiplier give the id. */
  predicate RepeatsBlock(n: nat, l: nat, len: nat)
    requires 1 <= l <= len
  {
    len % l == 0 &&
    var shift := Pow10(l);
    var prefix := n / Pow10(len - l);
    var multiplier := (Pow10(len) - 1) / (shift - 1);
    prefix * multiplier == n
  }

  /** Part two's test: some block length up to half the digits works. */
  predicate SomeBlockRepeats(n: nat)
    requires n >= 1
  {
    var len := Digits(n);
    exists l :: 1 <= l <= len / 2 && RepeatsBlock(n, l, len)
  }

  lemma AtLeastTwice(len: nat, l: nat)
    requires 1 <= l <= len / 2 && len % l == 0
    ensures len == l * (len / l) && len / l >= 2
  {
    var k := len / l;
    assert len == l * k + 0;
    if k <= 1 {
      MulLe(k, 1, l);
    }
  }

  lemma RepeatsToRepeated(n: nat, l: nat) returns (x: nat, k: nat)
    requires n >= 1 && 1 <= l <= Digits(n) / 2 && RepeatsBlock(n, l, Digits(n))
    ensures IsBlock(x, l) && k >= 2 && n == Repeat(x, l, k)
  {
    var len := Digits(n);
    x := LeadingBlock(n, l);
    k := len / l;
    AtLeastTwice(len, l);
    PrefixTimesOnes(n, l, len);
    RepeatScale(x, l, k);
  }

  /** What the source's test checks, with the multiplier written as ones. */
  lemma PrefixTimesOnes(n: nat, l: nat, len: nat)
    requires 1 <= l <= len && RepeatsBlock(n, l, len)
    ensures n == n / Pow10(len - l) * Repeat(1, l, len / l)
  {
    var m := (Pow10(len) - 1) / (Pow10(l) - 1);
    assert n / Pow10(len - l) * m == n;
    MultiplierExact(l, len);
  }

  /** The leading `l` digits of a number with at least `l` digits form a block. */
  lemma LeadingBlock(n: nat, l: nat) returns (x: nat)
    requires n >= 1 && 1 <= l <= Digits(n)
    ensures x == n / Pow10(Digits(n) - l) && IsBlock(x, l)
  {
    var len := Digits(n);
    Pow10Add(l - 1, len - l);
    Pow10Add(l, len - l);
    DivBetween(n, Pow10(len - l), Pow10(l - 1), Pow10(l));
    x := n / Pow10(len - l);
  }

  lemma RepeatedToRepeats(n: nat, x: nat, l: nat, k: nat)
    requires k >= 2 && IsBlock(x, l) && n == Repeat(x, l, k)
    ensures n >= 1 && 1 <= l <= Digits(n) / 2 && RepeatsBlock(n, l, Digits(n))
  {
    RepeatedLength(n, x, l, k);
    RepeatedBlock(x, l, k);
  }

  /** A block written `k` times has `l * k` digits. */
  lemma RepeatedLength(n: nat, x: nat, l: nat, k: nat)
    requires k >= 2 && IsBlock(x, l) && n == Repeat(x, l, k)
    ensures n >= 1 && Digits(n) == l * k && 1 <= l <= Digits(n) / 2 && (l * k) % l == 0
  {
    RepeatDigits(x, l, k);
    DigitsUnique(n, l * k);
    DivExact(l * k, l, k);
    MulLe(2, k, l);
  }

  /** The source's test accepts a block written `k` times. */
  lemma RepeatedBlock(x: nat, l: nat, k: nat)
    requires k >= 2 && IsBlock(x, l)
    ensures l * k >= l && RepeatsBlock(Repeat(x, l, k), l, l * k)
  {
    var len := l * k;
    DivExact(len, l, k);
    Product(l, k);
    RepeatPrefix(x, l, k);
    MultiplierExact(l, len);
    RepeatScale(x, l, k);
  }

  /** The leading `l` digits of a repeated block are the block. */
  lemma RepeatPrefix(x: nat, l: nat, k: nat)
    requires k >= 2 && IsBlock(x, l)
    ensures Repeat(x, l, k) / Pow10(l * (k - 1)) == x
  {
    RepeatFront(x, l, k - 1);
    RepeatBounds(x, l, k - 1);
    ShiftIsPow10(l, k - 1);
    DivModUnique(Repeat(x, l, k), Shift(l, k - 1), x, Repeat(x, l, k - 1));
  }

  /** The test keeps exactly the ids made of one block written at least
      twice. */
  lemma SomeBlockRepeatsIsRepeated(n: nat)
    requires n >= 1
    ensures SomeBlockRepeats(n) <==> Repeated(n)
  {
    var len := Digits(n);
    if SomeBlockRepeats(n) {
      var l :| 1 <= l <= len / 2 && RepeatsBlock(n, l, len);
      var x, k := RepeatsToRepeated(n, l);
    }
    if Repeated(n) {
      var x, l, k :| k >= 2 && IsBlock(x, l) && n == Repeat(x, l, k);
      RepeatedToRepeats(n, x, l, k);
    }
  }

  /** Every id part one keeps, part two keeps too. */
  lemma HalvesMatchRepeats(n: nat)
    requires n >= 1
    ensures HalvesMatch(n) ==> SomeBlockRepeats(n)
  {
    HalvesMatchIsDoubled(n);
    SomeBlockRepeatsIsRepeated(n);
  }

  // ---------------------------------------------------------------- sums

  /** Sum of the ids in `lo..=hi` that `keep` accepts. */
  function SumKept(lo: nat, hi: nat, keep: nat -> bool): nat
    decreases hi + 1 - lo
  {
    if hi < lo then 0 else (if keep(lo) then lo else 0) + SumKept(lo + 1, hi, keep)
  }

  /** Sum over all ranges. */
  function SumRanges(rs: seq<(nat, nat)>, keep: nat -> bool): nat
  {
    if rs == [] then 0 else SumKept(rs[0].0, rs[0].1, keep) + SumRanges(rs[1..], keep)
  }

  /** Keeping more ids never lowers a sum. */
  lemma {:induction false} SumKeptMonotone(lo: nat, hi: nat, a: nat -> bool, b: nat -> bool)
    requires forall n :: lo <= n <= hi && a(n) ==> b(n)
    ensures SumKept(lo, hi, a) <= SumKept(lo, hi, b)
    decreases hi + 1 - lo
  {
    if hi >= lo {
      SumKeptMonotone(lo + 1, hi, a, b);
    }
  }

  lemma {:induction false} SumRangesMonotone(rs: seq<(nat, nat)>, a: nat -> bool, b: nat -> bool)
    requires forall n :: a(n) ==> b(n)
    ensures SumRanges(rs, a) <= SumRanges(rs, b)
  {
    if rs != [] {
      SumKeptMonotone(rs[0].0, rs[0].1, a, b);
      SumRangesMonotone(rs[1..], a, b);
    }
  }

  /** `ilog10` panics when a range holds 0. */
  predicate HoldsZero(rs: seq<(nat, nat)>)
  {
    exists i :: 0 <= i < |rs| && rs[i].0 == 0 && rs[i].0 <= rs[i].1
  }

  /** Part two indexes `POW10[len]`, out of the table when an id has more
      than 15 digits, that is when it is at least `10^15`. */
  predicate HoldsLong(rs: seq<(nat, nat)>)
  {
    exists i :: 0 <= i < |rs| && rs[i].0 <= rs[i].1 && rs[i].1 >= Pow10(15)
  }

  function KeepOne(n: nat): bool { n >= 1 && HalvesMatch(n) }

  function KeepTwo(n: nat): bool { n >= 1 && SomeBlockRepeats(n) }

  function PartOne(input: string): (r: Option<nat>)
    ensures r.Some? <==> StreamInput(input).Some? && !HoldsZero(StreamInput(input).value)
  {
    match StreamInput(input)
    case None => None
    case Some(rs) => if HoldsZero(rs) then None else Some(SumRanges(rs, KeepOne))
  }

  function PartTwo(input: string): (r: Option<nat>)
    ensures r.Some? <==> StreamInput(input).Some? && !HoldsZero(StreamInput(input).value)
                                                 && !HoldsLong(StreamInput(input).value)
  {
    match StreamInput(input)
    case None => None
    case Some(rs) => if HoldsZero(rs) || HoldsLong(rs) then None else Some(SumRanges(rs, KeepTwo))
  }

  /** Part two's answer is never below part one's. */
  lemma PartOneBelowPartTwo(input: string)
    requires PartTwo(input).Some?
    ensures PartOne(input).Some? && PartOne(input).value <= PartTwo(input).value
  {
    forall n | KeepOne(n) ensures KeepTwo(n) {
      HalvesMatchRepeats(n);
    }
    SumRangesMonotone(StreamInput(input).value, KeepOne, KeepTwo);
  }
}
