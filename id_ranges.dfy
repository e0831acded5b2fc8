/** Fresh ingredient ids (src/bin/05.rs): inclusive id ranges, a set of
    ranges kept sorted and disjoint by merging in place, and the two
    answers built on them. */
module IdRanges {
  import opened Text

  /** An inclusive range `lo..=hi`; it is empty when `hi < lo`. */
  datatype IdRange = IdRange(lo: nat, hi: nat)

  /** `IdRange::contains`: inclusive at both ends, so a non-empty range
      contains both of its end points, and only a non-empty range contains
      anything. */
  predicate Contains(r: IdRange, n: nat): (b: bool)
    ensures r.lo <= r.hi && (n == r.lo || n == r.hi) ==> b
    ensures b ==> r.lo <= r.hi
  {
    r.lo <= n <= r.hi
  }

  /** The ids a range covers. */
  function Span(r: IdRange): (ids: set<nat>)
    ensures forall x :: x in ids <==> r.lo <= x <= r.hi
  {
    set x: nat | r.lo <= x <= r.hi && Contains(r, x)
  }

  // ---------------------------------------------------------------------
  // IdRange

  /** `IdRange::from_str`: `start-end`, both parsed as `u64`. */
  function ParseRange(s: string): (r: Option<IdRange>)
    ensures r.Some? ==> r.value.lo < U64_LIMIT && r.value.hi < U64_LIMIT
  {
    match SplitOnce(s, '-')
    case None => None
    case Some((a, b)) =>
      match (ParseU64(a), ParseU64(b))
      case (Some(lo), Some(hi)) => Some(IdRange(lo, hi))
      case _ => None
  }

  /** `ParseRange` reads back the decimal text of any 64-bit range. */
  lemma ParseRangeRoundTrip(lo: nat, hi: nat)
    requires lo < U64_LIMIT && hi < U64_LIMIT
    ensures ParseRange(Decimal(lo) + "-" + Decimal(hi)) == Some(IdRange(lo, hi))
  {
    var a, b := Decimal(lo), Decimal(hi);
    var s := a + "-" + b;
    assert '-' !in a by {
      forall i | 0 <= i < |a| ensures a[i] != '-' {
        assert a[i] in a;
      }
    }
    assert Find(s, '-') == Some(|a|) by {
      assert s[|a|] == '-' && s[..|a|] == a;
    }
    assert s[..|a|] == a && s[|a| + 1..] == b;
    DecimalRoundTrip(lo);
    DecimalRoundTrip(hi);
  }

  /** `IdRange::overlaps`: neither range lies wholly before the other. Two
      non-empty ranges overlap exactly when they share an id (touching end
      points share that end point), and overlapping is symmetric. */
  predicate Overlaps(a: IdRange, b: IdRange): (o: bool)
    ensures a.lo <= a.hi && b.lo <= b.hi ==> (o <==> Span(a) * Span(b) != {})
    ensures o == !(b.hi < a.lo || b.lo > a.hi)
  {
    var x := if a.lo < b.lo then b.lo else a.lo;
    assert !(a.hi < b.lo || a.lo > b.hi) && a.lo <= a.hi && b.lo <= b.hi ==> x in Span(a) * Span(b);
    !(a.hi < b.lo || a.lo > b.hi)
  }

  /** `IdRange::merge`: from the smaller start to the larger end. */
  function Merge(a: IdRange, b: IdRange): (m: IdRange)
    ensures m.lo <= a.lo && m.lo <= b.lo && (m.lo == a.lo || m.lo == b.lo)
    ensures m.hi >= a.hi && m.hi >= b.hi && (m.hi == a.hi || m.hi == b.hi)
  {
    IdRange(if a.lo <= b.lo then a.lo else b.lo, if a.hi >= b.hi then a.hi else b.hi)
  }

  /** Merging two overlapping non-empty ranges covers exactly their union. */
  lemma MergeIsUnion(a: IdRange, b: IdRange)
    requires a.lo <= a.hi && b.lo <= b.hi && Overlaps(a, b)
    ensures Span(Merge(a, b)) == Span(a) + Span(b)
  {
  }

  /** `IdRange::is_less_than`: ordered by start only. Between two
      non-empty ranges that do not overlap, it says that the first ends
      before the second begins. */
  predicate IsLessThan(a: IdRange, b: IdRange): (lt: bool)
    ensures a.lo <= a.hi && b.lo <= b.hi && !Overlaps(a, b) ==> (lt <==> a.hi < b.lo)
    ensures lt ==> !(b.lo < a.lo)
  {
    a.lo < b.lo
  }

  /** Number of ids in the range, as `RangeInclusive::count`. */
  function Count(r: IdRange): (n: nat)
    ensures n == |Span(r)|
  {
    SpanSize(r);
    if r.lo <= r.hi then r.hi - r.lo + 1 else 0
  }

  lemma {:induction false} SpanSize(r: IdRange)
    ensures |Span(r)| == if r.lo <= r.hi then r.hi - r.lo + 1 else 0
    decreases r.hi - r.lo
  {
    if r.lo < r.hi {
      var shorter := IdRange(r.lo, r.hi - 1);
      SpanSize(shorter);
      assert Span(r) == Span(shorter) + {r.hi};
    } else if r.lo == r.hi {
      assert Span(r) == {r.hi};
    } else {
      assert Span(r) == {};
    }
  }

  // ---------------------------------------------------------------------
  // Sorted, disjoint sequences of ranges

  /** Every range is non-empty, and each ends before the next one starts. */
  predicate SortedDisjoint(rs: seq<IdRange>)
  {
    (forall i :: 0 <= i < |rs| ==> rs[i].lo <= rs[i].hi)
    && (forall i :: 0 <= i < |rs| - 1 ==> rs[i].hi < rs[i + 1].lo)
  }

  /** The ids covered by any range of the sequence. */
  function Covered(rs: seq<IdRange>): set<nat>
  {
    if rs == [] then {} else Span(rs[0]) + Covered(rs[1..])
  }

  lemma {:induction false} CoveredAppend(a: seq<IdRange>, b: seq<IdRange>)
    ensures Covered(a + b) == Covered(a) + Covered(b)
  {
    if a != [] {
      assert (a + b)[1..] == a[1..] + b;
      CoveredAppend(a[1..], b);
    } else {
      assert a + b == b;
    }
  }

  lemma {:induction false} CoveredIsAnyContains(rs: seq<IdRange>, n: nat)
    ensures n in Covered(rs) <==> exists i :: 0 <= i < |rs| && Contains(rs[i], n)
  {
    if rs != [] {
      CoveredIsAnyContains(rs[1..], n);
      if n in Covered(rs[1..]) {
        var i :| 1 <= i + 1 < |rs| && Contains(rs[1..][i], n);
        assert Contains(rs[i + 1], n);
      }
      if exists i :: 0 <= i < |rs| && Contains(rs[i], n) {
        var i :| 0 <= i < |rs| && Contains(rs[i], n);
        if i > 0 {
          assert Contains(rs[1..][i - 1], n);
        }
      }
    }
  }

  /** In a sorted, disjoint sequence every covered id is at least the first start. */
  lemma {:induction false} CoveredAbove(rs: seq<IdRange>, x: nat)
    requires SortedDisjoint(rs) && x in Covered(rs)
    ensures rs[0].lo <= x
  {
    if x !in Span(rs[0]) {
      CoveredAbove(rs[1..], x);
    }
  }

  lemma {:induction false} SortedDisjointSuffix(rs: seq<IdRange>, k: nat)
    requires SortedDisjoint(rs) && k <= |rs|
    ensures SortedDisjoint(rs[k..])
  {
    forall i | 0 <= i < |rs| - k - 1
      ensures rs[k..][i].hi < rs[k..][i + 1].lo
    {
      assert rs[k..][i] == rs[k + i] && rs[k..][i + 1] == rs[k + i + 1];
    }
  }

  lemma SortedDisjointPrefix(rs: seq<IdRange>, k: nat)
    requires SortedDisjoint(rs) && k <= |rs|
    ensures SortedDisjoint(rs[..k])
  {
    forall i | 0 <= i < k - 1
      ensures rs[..k][i].hi < rs[..k][i + 1].lo
    {
      assert rs[..k][i] == rs[i] && rs[..k][i + 1] == rs[i + 1];
    }
  }

  lemma SortedDisjointJoin(a: seq<IdRange>, b: seq<IdRange>)
    requires SortedDisjoint(a) && SortedDisjoint(b)
    requires a != [] && b != [] ==> a[|a| - 1].hi < b[0].lo
    ensures SortedDisjoint(a + b)
  {
    var ab := a + b;
    forall i | 0 <= i < |ab| - 1
      ensures ab[i].hi < ab[i + 1].lo
    {
      if i + 1 < |a| {
        assert ab[i] == a[i] && ab[i + 1] == a[i + 1];
      } else if i + 1 == |a| {
        assert ab[i] == a[|a| - 1] && ab[i + 1] == b[0];
      } else {
        assert ab[i] == b[i - |a|] && ab[i + 1] == b[i - |a| + 1];
      }
    }
  }

  /** Sum of the counts, as `RangeSet::len`. */
  function TotalCount(rs: seq<IdRange>): nat
  {
    if rs == [] then 0 else Count(rs[0]) + TotalCount(rs[1..])
  }

  /** On a sorted, disjoint sequence the summed counts are the number of
      distinct ids covered. */
  lemma {:induction false} TotalCountIsCoveredSize(rs: seq<IdRange>)
    requires SortedDisjoint(rs)
    ensures TotalCount(rs) == |Covered(rs)|
  {
    if rs != [] {
      SortedDisjointSuffix(rs, 1);
      TotalCountIsCoveredSize(rs[1..]);
      assert Span(rs[0]) * Covered(rs[1..]) == {} by {
        forall x | x in Covered(rs[1..]) ensures x !in Span(rs[0]) {
          CoveredAbove(rs[1..], x);
        }
      }
      DisjointUnionSize(Span(rs[0]), Covered(rs[1..]));
    }
  }

  lemma DisjointUnionSize(a: set<nat>, b: set<nat>)
    requires a * b == {}
    ensures |a + b| == |a| + |b|
  {
  }

  // ---------------------------------------------------------------------
  // Merging one range into a sorted, disjoint sequence

  /** The first index whose range overlaps `r` or starts after `r` starts
      (the `position` search of `RangeSet::merge_with`). */
  function Position(rs: seq<IdRange>, r: IdRange): (p: Option<nat>)
    ensures p.Some? ==> p.value < |rs| && (Overlaps(rs[p.value], r) || IsLessThan(r, rs[p.value]))
    ensures p.Some? ==> forall j :: 0 <= j < p.value ==> !Overlaps(rs[j], r) && !IsLessThan(r, rs[j])
    ensures p.None? ==> forall j :: 0 <= j < |rs| ==> !Overlaps(rs[j], r) && !IsLessThan(r, rs[j])
  {
    if rs == [] then None
    else if Overlaps(rs[0], r) || IsLessThan(r, rs[0]) then Some(0)
    else match Position(rs[1..], r)
      case None => None
      case Some(p) => Some(p + 1)
  }

  /** `m` swallows the leading ranges of `rest` as long as they overlap it. */
  function Absorb(m: IdRange, rest: seq<IdRange>): seq<IdRange>
    decreases |rest|
  {
    if rest != [] && Overlaps(m, rest[0]) then Absorb(Merge(m, rest[0]), rest[1..]) else [m] + rest
  }

  /** The range sequence after `merge_with(r)`. */
  function Inserted(rs: seq<IdRange>, r: IdRange): seq<IdRange>
  {
    match Position(rs, r)
    case None => rs + [r]
    case Some(i) =>
      if Overlaps(rs[i], r) then rs[..i] + Absorb(Merge(rs[i], r), rs[i + 1..])
      else rs[..i] + [r] + rs[i..]
  }

  lemma {:induction false} AbsorbSortedUnion(m: IdRange, rest: seq<IdRange>)
    requires m.lo <= m.hi && SortedDisjoint(rest)
    requires rest != [] ==> m.lo <= rest[0].lo
    ensures var out := Absorb(m, rest);
      out != [] && out[0].lo == m.lo && SortedDisjoint(out) && Covered(out) == Span(m) + Covered(rest)
    decreases |rest|
  {
    if rest != [] && Overlaps(m, rest[0]) {
      var m' := Merge(m, rest[0]);
      SortedDisjointSuffix(rest, 1);
      MergeIsUnion(m, rest[0]);
      AbsorbSortedUnion(m', rest[1..]);
    } else {
      SortedDisjointJoin([m], rest);
      assert ([m] + rest)[1..] == rest;
    }
  }

  /** `merge_with` keeps the sequence sorted and disjoint, and adds exactly
      the ids of `r` to the covered set. */
  lemma InsertedSortedUnion(rs: seq<IdRange>, r: IdRange)
    requires SortedDisjoint(rs) && r.lo <= r.hi
    ensures SortedDisjoint(Inserted(rs, r))
    ensures Covered(Inserted(rs, r)) == Covered(rs) + Span(r)
  {
    match Position(rs, r)
    case None =>
      SortedDisjointJoin(rs, [r]);
      CoveredAppend(rs, [r]);
    case Some(i) =>
      if Overlaps(rs[i], r) {
        MergedAt(rs, r, i);
      } else {
        InsertedAt(rs, r, i);
      }
  }

  lemma SplitAt(rs: seq<IdRange>, i: nat)
    requires SortedDisjoint(rs) && i < |rs|
    ensures SortedDisjoint(rs[..i]) && SortedDisjoint(rs[i..]) && SortedDisjoint(rs[i + 1..])
    ensures Covered(rs) == Covered(rs[..i]) + Span(rs[i]) + Covered(rs[i + 1..])
    ensures rs[i..] == [rs[i]] + rs[i + 1..]
  {
    SortedDisjointPrefix(rs, i);
    SortedDisjointSuffix(rs, i);
    SortedDisjointSuffix(rs, i + 1);
    CoveredSplit(rs, i);
  }

  lemma {:induction false} CoveredSplit(rs: seq<IdRange>, i: nat)
    requires i < |rs|
    ensures Covered(rs) == Covered(rs[..i]) + Span(rs[i]) + Covered(rs[i + 1..])
    ensures rs[i..] == [rs[i]] + rs[i + 1..]
  {
    var pre, mid, post := rs[..i], rs[i..], rs[i + 1..];
    assert rs == pre + mid;
    CoveredAppend(pre, mid);
    assert mid == [rs[i]] + post;
    assert Covered(mid) == Span(rs[i]) + Covered(post) by {
      assert mid[1..] == post;
    }
  }

  /** The ranges before position `i` end before both `rs[i]` and `r` start. */
  lemma BeforePosition(rs: seq<IdRange>, r: IdRange, i: nat)
    requires SortedDisjoint(rs) && r.lo <= r.hi && Position(rs, r) == Some(i)
    ensures i > 0 ==> rs[i - 1].hi < r.lo && rs[i - 1].hi < rs[i].lo
  {
    if i > 0 {
      assert !Overlaps(rs[i - 1], r) && !IsLessThan(r, rs[i - 1]);
    }
  }

  lemma MergedAt(rs: seq<IdRange>, r: IdRange, i: nat)
    requires SortedDisjoint(rs) && r.lo <= r.hi && Position(rs, r) == Some(i) && Overlaps(rs[i], r)
    ensures SortedDisjoint(Inserted(rs, r))
    ensures Covered(Inserted(rs, r)) == Covered(rs) + Span(r)
  {
    var pre, post := rs[..i], rs[i + 1..];
    var m := Merge(rs[i], r);
    var tail := Absorb(m, post);
    assert Inserted(rs, r) == pre + tail;
    SplitAt(rs, i);
    AbsorbSortedUnion(m, post);
    assert SortedDisjoint(pre + tail) by {
      BeforePosition(rs, r, i);
      assert pre != [] ==> pre[|pre| - 1].hi < tail[0].lo;
      SortedDisjointJoin(pre, tail);
    }
    assert Covered(pre + tail) == Covered(rs) + Span(r) by {
      CoveredAppend(pre, tail);
      MergeIsUnion(rs[i], r);
    }
  }

  lemma InsertedAt(rs: seq<IdRange>, r: IdRange, i: nat)
    requires SortedDisjoint(rs) && r.lo <= r.hi && Position(rs, r) == Some(i) && !Overlaps(rs[i], r)
    ensures SortedDisjoint(Inserted(rs, r))
    ensures Covered(Inserted(rs, r)) == Covered(rs) + Span(r)
  {
    assert Inserted(rs, r) == rs[..i] + ([r] + rs[i..]);
    SplitAt(rs, i);
    BeforePosition(rs, r, i);
    InsertBetween(rs[..i], r, rs[i..]);
    assert rs[..i] + rs[i..] == rs;
  }

  /** A range that falls strictly between two sorted sequences joins them. */
  lemma InsertBetween(pre: seq<IdRange>, r: IdRange, post: seq<IdRange>)
    requires SortedDisjoint(pre) && SortedDisjoint(post) && r.lo <= r.hi
    requires pre != [] ==> pre[|pre| - 1].hi < r.lo
    requires post != [] ==> r.hi < post[0].lo
    ensures SortedDisjoint(pre + ([r] + post))
    ensures Covered(pre + ([r] + post)) == Covered(pre + post) + Span(r)
  {
    var tail := [r] + post;
    SortedDisjointJoin([r], post);
    SortedDisjointJoin(pre, tail);
    CoveredAppend(pre, tail);
    CoveredAppend([r], post);
    assert [r][1..] == [];
    CoveredAppend(pre, post);
  }

  /** A range that bridges two neighbouring stored ranges collapses them into one. */
  lemma BridgeCollapses(a: IdRange, b: IdRange, r: IdRange)
    requires SortedDisjoint([a, b]) && r.lo <= r.hi
    requires Overlaps(a, r) && Overlaps(r, b)
    ensures Inserted([a, b], r) == [IdRange(if a.lo <= r.lo then a.lo else r.lo, if b.hi >= r.hi then b.hi else r.hi)]
  {
    assert Position([a, b], r) == Some(0);
    var m := Merge(a, r);
    assert [a, b][1..] == [b] && [a, b][..0] == [];
    assert Overlaps(m, b);
    assert [b][1..] == [];
    assert Absorb(m, [b]) == Absorb(Merge(m, b), []) == [Merge(m, b)];
  }

  // ---------------------------------------------------------------------
  // RangeSet

  /** `RangeSet`: the vector of stored ranges, updated in place. */
  class RangeSet {
    var ranges: seq<IdRange>

    ghost predicate Valid()
      reads this
    {
      SortedDisjoint(ranges)
    }

    /** `RangeSet::new`. */
    constructor ()
      ensures ranges == [] && Valid()
    {
      ranges := [];
    }

    /** `RangeSet::merge_with`: finds the first stored range that overlaps
        `r` or starts after it; merges into it and then absorbs following
        ranges while they overlap, or inserts `r` before it, or appends. */
    method MergeWith(r: IdRange)
      requires Valid() && r.lo <= r.hi
      modifies this
      ensures ranges == Inserted(old(ranges), r)
      ensures Valid() && Covered(ranges) == Covered(old(ranges)) + Span(r)
    {
      InsertedSortedUnion(ranges, r);
      ghost var rs := ranges;
      match Position(ranges, r)
      case Some(idx) =>
        if Overlaps(ranges[idx], r) {
          ranges := ranges[idx := Merge(ranges[idx], r)];
          assert ranges[idx + 1..] == rs[idx + 1..];
          while idx + 1 < |ranges| && Overlaps(ranges[idx], ranges[idx + 1])
            invariant idx < |ranges|
            invariant ranges[..idx] == rs[..idx]
            invariant rs[..idx] + Absorb(ranges[idx], ranges[idx + 1..]) == Inserted(rs, r)
            decreases |ranges|
          {
            ghost var before := ranges;
            ranges := ranges[idx := Merge(ranges[idx], ranges[idx + 1])];
            ranges := ranges[..idx + 1] + ranges[idx + 2..];
            assert ranges[idx + 1..] == before[idx + 1..][1..];
            assert Absorb(ranges[idx], ranges[idx + 1..]) == Absorb(before[idx], before[idx + 1..]);
          }
          assert ranges == ranges[..idx] + Absorb(ranges[idx], ranges[idx + 1..]);
        } else {
          ranges := ranges[..idx] + [r] + ranges[idx..];
        }
      case None =>
        ranges := ranges + [r];
    }

    /** `RangeSet::len`: summed range sizes, which is the number of distinct
        ids the set covers. */
    function Len(): (n: nat)
      requires Valid()
      reads this
      ensures n == |Covered(ranges)|
    {
      TotalCountIsCoveredSize(ranges);
      TotalCount(ranges)
    }
  }

  /** Union of the spans of all ranges, in any order. */
  function UnionOf(rs: seq<IdRange>): set<nat>
  {
    if rs == [] then {} else UnionOf(rs[..|rs| - 1]) + Span(rs[|rs| - 1])
  }

  /** `RangeSet::collect`: merges the ranges one by one into a new set. */
  method Collect(input: seq<IdRange>) returns (set': RangeSet)
    requires forall i :: 0 <= i < |input| ==> input[i].lo <= input[i].hi
    ensures fresh(set') && set'.Valid() && Covered(set'.ranges) == UnionOf(input)
  {
    set' := new RangeSet();
    for k := 0 to |input|
      invariant set'.Valid() && Covered(set'.ranges) == UnionOf(input[..k])
    {
      assert input[..k + 1][..k] == input[..k];
      set'.MergeWith(input[k]);
    }
    assert input[..|input|] == input;
  }

  // ---------------------------------------------------------------------
  // Puzzle answers

  /** Leading lines up to the first empty one (`take_while`). */
  function TakeNonEmpty(lines: seq<string>): (head: seq<string>)
    ensures |head| <= |lines| && head == lines[..|head|] && forall l <- head :: l != ""
    ensures |head| < |lines| ==> lines[|head|] == ""
  {
    if lines == [] || lines[0] == "" then [] else [lines[0]] + TakeNonEmpty(lines[1..])
  }

  function ParseRanges(lines: seq<string>): (r: Option<seq<IdRange>>)
    ensures r.Some? ==> |r.value| == |lines| && forall i :: 0 <= i < |lines| ==> ParseRange(lines[i]) == Some(r.value[i])
    ensures r.None? ==> exists i :: 0 <= i < |lines| && ParseRange(lines[i]).None?
  {
    if lines == [] then Some([])
    else match (ParseRange(lines[0]), ParseRanges(lines[1..]))
      case (Some(x), Some(xs)) => Some([x] + xs)
      case (None, _) => None
      case (Some(_), None) => None
  }

  function ParseNumbers(lines: seq<string>): (r: Option<seq<nat>>)
    ensures r.Some? ==> forall n <- r.value :: n < U64_LIMIT
  {
    if lines == [] then Some([])
    else if lines[0] == "" then ParseNumbers(lines[1..])
    else match (ParseU64(lines[0]), ParseNumbers(lines[1..]))
      case (Some(x), Some(xs)) => Some([x] + xs)
      case _ => None
  }

  /** `parse_input`: ranges until the first empty line, then the non-empty
      lines as numbers; `None` where the source would panic. */
  function ParseInput(input: string): (r: Option<(seq<IdRange>, seq<nat>)>)
    ensures r.Some? ==> |r.value.0| == |TakeNonEmpty(Lines(input))|
  {
    var lines := Lines(input);
    var head := TakeNonEmpty(lines);
    var rest := if |head| < |lines| then lines[|head| + 1..] else [];
    match (ParseRanges(head), ParseNumbers(rest))
    case (Some(rs), Some(ns)) => Some((rs, ns))
    case _ => None
  }

  /** Numbers contained in at least one range. */
  function FreshCount(ranges: seq<IdRange>, numbers: seq<nat>): (n: nat)
    ensures n <= |numbers|
  {
    if numbers == [] then 0
    else
      var hit := exists i :: 0 <= i < |ranges| && Contains(ranges[i], numbers[|numbers| - 1]);
      FreshCount(ranges, numbers[..|numbers| - 1]) + if hit then 1 else 0
  }

  /** How many entries of `ns` belong to `ids`. */
  function CountIn(ids: set<nat>, ns: seq<nat>): nat
  {
    if ns == [] then 0 else CountIn(ids, ns[..|ns| - 1]) + if ns[|ns| - 1] in ids then 1 else 0
  }

  /** A number is fresh exactly when it is one of the ids the ranges cover, so
      part one may count against the merged set as well as the raw ranges. */
  lemma {:induction false} FreshCountByCovered(ranges: seq<IdRange>, numbers: seq<nat>)
    ensures FreshCount(ranges, numbers) == CountIn(Covered(ranges), numbers)
  {
    if numbers != [] {
      FreshCountByCovered(ranges, numbers[..|numbers| - 1]);
      CoveredIsAnyContains(ranges, numbers[|numbers| - 1]);
    }
  }

  function PartOne(input: string): (r: Option<nat>)
    ensures r.Some? <==> ParseInput(input).Some?
    ensures r.Some? ==> r.value == FreshCount(ParseInput(input).value.0, ParseInput(input).value.1)
  {
    match ParseInput(input)
    case Some((ranges, numbers)) => Some(FreshCount(ranges, numbers))
    case None => None
  }

  /** The ranges `part_two` reads: the lines before the first empty one.
      It never draws from the iterator of numbers, so the lines after the
      empty one are not parsed and cannot make it panic. */
  function RangesOnly(input: string): (r: Option<seq<IdRange>>)
    ensures r.Some? <==> forall l <- TakeNonEmpty(Lines(input)) :: ParseRange(l).Some?
    ensures r.Some? ==> |r.value| == |TakeNonEmpty(Lines(input))|
  {
    ParseRanges(TakeNonEmpty(Lines(input)))
  }

  /** Whenever the whole input parses, both parts see the same ranges. */
  lemma RangesOnlyAgree(input: string)
    requires ParseInput(input).Some?
    ensures RangesOnly(input) == Some(ParseInput(input).value.0)
  {
  }

  /** `part_two`: the number of distinct ids covered by the ranges. */
  method PartTwo(input: string) returns (r: Option<nat>)
    requires RangesOnly(input).Some? ==> forall x <- RangesOnly(input).value :: x.lo <= x.hi
    ensures r.Some? <==> RangesOnly(input).Some?
    ensures r.Some? ==> r.value == |UnionOf(RangesOnly(input).value)|
  {
    match RangesOnly(input)
    case Some(ranges) =>
      var s := Collect(ranges);
      var n := s.Len();
      return Some(n);
    case None =>
      return None;
  }
}
