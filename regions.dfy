/** Present packing (src/bin/12.rs): after thirty lines describing the
    shapes, every line names a region `WxH: c0 c1 ...` and how many
    presents of each shape must go in it. Every shape fits in a 3x3 square,
    so a region is counted when its area is at least nine cells per
    present. Part two has no answer. */
module Regions {
  import opened Text
  import opened Arith

  /** Lines taken by the shape catalogue in front of the regions. */
  const SHAPE_LINES: nat := 30
  /** Cells of the 3x3 square each present is allowed. */
  const PRESENT_AREA: nat := 9

  function Product(ns: seq<nat>): nat
  {
    if ns == [] then 1 else ns[0] * Product(ns[1..])
  }

  /** The area of a region: the product of its `x`-separated sides. */
  function RegionSize(size: string): Option<nat>
  {
    match ParseAll(Split(size, 'x'))
    case None => None
    case Some(sides) => Some(Product(sides))
  }

  /** Nine cells per present, from the space-separated counts. */
  function Required(counts: string): Option<nat>
  {
    match ParseAll(Split(counts, ' '))
    case None => None
    case Some(ns) => Some(PRESENT_AREA * Sum(ns))
  }

  /** Whether one region line is counted, reading its counts from byte
      `skip` of the text after the colon; `None` where the source panics
      (no colon, a slice start past the end, a piece that is not a number). */
  function FitsFrom(region: string, skip: nat): (r: Option<bool>)
    ensures r.Some? ==> ':' in region
  {
    match SplitOnce(region, ':')
    case None => None
    case Some((size, counts)) =>
      if |counts| < skip then None
      else
        match (RegionSize(size), Required(counts[skip..]))
        case (Some(area), Some(required)) => Some(area >= required)
        case _ => None
  }

  /** The verdict on every region line, in order. */
  function Verdicts(regions: seq<string>, skip: nat): (vs: seq<Option<bool>>)
    ensures |vs| == |regions|
    ensures forall i :: 0 <= i < |regions| ==> vs[i] == FitsFrom(regions[i], skip)
  {
    seq(|regions|, i requires 0 <= i < |regions| => FitsFrom(regions[i], skip))
  }

  /** How many verdicts are `true`; `None` as soon as one of them panics
      (`filter` then `count`). */
  function Tally(vs: seq<Option<bool>>): (r: Option<nat>)
    ensures r.Some? ==> r.value <= |vs|
  {
    if vs == [] then Some(0)
    else
      match (vs[0], Tally(vs[1..]))
      case (Some(b), Some(k)) => Some((if b then 1 else 0) + k)
      case _ => None
  }

  /** How many of `regions` are counted; `None` when one of them panics. */
  function CountFits(regions: seq<string>, skip: nat): Option<nat>
  {
    Tally(Verdicts(regions, skip))
  }

  /** The lines after the shape catalogue (`Iterator::skip`). */
  function RegionLines(input: string): (rs: seq<string>)
    ensures |Lines(input)| <= SHAPE_LINES ==> rs == []
    ensures |Lines(input)| > SHAPE_LINES ==> |rs| == |Lines(input)| - SHAPE_LINES
    ensures forall i :: 0 <= i < |rs| ==> rs[i] == Lines(input)[SHAPE_LINES + i]
  {
    var ls := Lines(input);
    if |ls| <= SHAPE_LINES then [] else ls[SHAPE_LINES..]
  }

  /** Part one as written: the counts are read from byte 2 after the colon. */
  function PartOneAsWritten(input: string): (r: Option<nat>)
    ensures |Lines(input)| <= SHAPE_LINES ==> r == Some(0)
    ensures r.Some? ==> r.value <= |RegionLines(input)|
  {
    CountFits(RegionLines(input), 2)
  }

  /** Part one with the counts read from byte 1, just past the space that
      follows the colon. */
  function PartOne(input: string): (r: Option<nat>)
    ensures |Lines(input)| <= SHAPE_LINES ==> r == Some(0)
    ensures r.Some? ==> r.value <= |RegionLines(input)|
  {
    CountFits(RegionLines(input), 1)
  }

  /** Part two has no answer. */
  function PartTwo(input: string): (r: Option<nat>)
    ensures r.None?
  {
    None
  }

  // ------------------------------------------------------------ counting

  lemma TallyCons(vs: seq<Option<bool>>, b: bool, k: nat)
    requires vs != [] && vs[0] == Some(b) && Tally(vs[1..]) == Some(k)
    ensures Tally(vs) == Some((if b then 1 else 0) + k)
  {
  }

  lemma TallyParts(vs: seq<Option<bool>>)
    requires vs != [] && Tally(vs).Some?
    ensures vs[0].Some? && Tally(vs[1..]).Some?
    ensures Tally(vs).value == (if vs[0].value then 1 else 0) + Tally(vs[1..]).value
  {
  }

  /** The count over two runs of regions is the sum of their counts. */
  lemma {:induction false} TallyConcat(a: seq<Option<bool>>, b: seq<Option<bool>>)
    requires Tally(a).Some? && Tally(b).Some?
    ensures Tally(a + b) == Some(Tally(a).value + Tally(b).value)
  {
    if a == [] {
      assert a + b == b;
    } else {
      TallyParts(a);
      TallyConcat(a[1..], b);
      assert (a + b)[0] == a[0] && (a + b)[1..] == a[1..] + b;
      var k := Tally(a[1..] + b).value;
      TallyCons(a + b, a[0].value, k);
      assert k == Tally(a[1..]).value + Tally(b).value;
    }
  }

  /** The count exists exactly when no region panics. */
  lemma {:induction false} TallyDefined(vs: seq<Option<bool>>)
    ensures Tally(vs).Some? <==> forall i :: 0 <= i < |vs| ==> vs[i].Some?
  {
    if vs != [] {
      TallyDefined(vs[1..]);
      assert forall i :: 1 <= i < |vs| ==> vs[i] == vs[1..][i - 1];
    }
  }

  /** All regions are counted exactly when all fit, and none exactly when
      none fits. */
  lemma {:induction false} TallyExtremes(vs: seq<Option<bool>>)
    requires forall i :: 0 <= i < |vs| ==> vs[i].Some?
    ensures Tally(vs).Some?
    ensures Tally(vs).value == |vs| <==> forall i :: 0 <= i < |vs| ==> vs[i].value
    ensures Tally(vs).value == 0 <==> forall i :: 0 <= i < |vs| ==> !vs[i].value
  {
    TallyDefined(vs);
    if vs != [] {
      assert forall i :: 1 <= i < |vs| ==> vs[i] == vs[1..][i - 1];
      TallyParts(vs);
      TallyExtremes(vs[1..]);
    }
  }

  /** Part one answers exactly when no region line makes the source panic. */
  lemma PartOneDefined(input: string)
    ensures PartOne(input).Some? <==>
      forall i :: 0 <= i < |RegionLines(input)| ==> FitsFrom(RegionLines(input)[i], 1).Some?
  {
    var vs := Verdicts(RegionLines(input), 1);
    TallyDefined(vs);
  }

  // ------------------------------------------------------------ region lines

  /** How a region is written, `WxH: c0 c1 ...`, from the rendered numbers. */
  function RegionText(w: string, h: string, cs: seq<string>): string
    requires |cs| >= 1
  {
    w + "x" + h + ": " + Join(cs, ' ')
  }

  function Region(width: nat, height: nat, counts: seq<nat>): string
    requires |counts| >= 1
  {
    RegionText(Decimal(width), Decimal(height), Decimals(counts))
  }

  function Decimals(ns: seq<nat>): (ds: seq<string>)
    ensures |ds| == |ns|
    ensures forall i :: 0 <= i < |ns| ==> ds[i] == Decimal(ns[i])
  {
    if ns == [] then [] else [Decimal(ns[0])] + Decimals(ns[1..])
  }

  predicate Below(ns: seq<nat>, limit: nat)
  {
    forall i :: 0 <= i < |ns| ==> ns[i] < limit
  }

  lemma DecimalsHaveNo(ns: seq<nat>, c: char)
    requires !IsDigit(c)
    ensures forall d <- Decimals(ns) :: c !in d
  {
    forall d <- Decimals(ns) ensures c !in d {
      assert AllDigits(d);
    }
  }

  /** Rendered numbers parse back. */
  lemma {:induction false} ParseDecimals(ns: seq<nat>)
    requires Below(ns, U64_LIMIT)
    ensures ParseAll(Decimals(ns)) == Some(ns)
  {
    if ns != [] {
      var ds := Decimals(ns);
      assert ds[1..] == Decimals(ns[1..]);
      ParseU64Decimal(ns[0]);
      ParseDecimals(ns[1..]);
      ParseAllCons(ds, ns[0], ns[1..]);
      assert ns == [ns[0]] + ns[1..];
    }
  }

  lemma SizeHasNoColon(w: string, h: string)
    requires AllDigits(w) && AllDigits(h)
    ensures ':' !in w + "x" + h
  {
  }

  lemma RegionTextParts(w: string, h: string, j: string)
    ensures w + "x" + h + ": " + j == (w + "x" + h) + [':'] + (" " + j)
  {
  }

  lemma RegionTextSplit(w: string, h: string, cs: seq<string>)
    requires |cs| >= 1 && AllDigits(w) && AllDigits(h)
    ensures SplitOnce(RegionText(w, h, cs), ':') == Some((w + "x" + h, " " + Join(cs, ' ')))
  {
    var j := Join(cs, ' ');
    SizeHasNoColon(w, h);
    RegionTextParts(w, h, j);
    SplitOnceAt(w + "x" + h, ':', " " + j);
  }

  lemma SidesText(w: string, h: string)
    requires AllDigits(w) && AllDigits(h)
    ensures Split(w + "x" + h, 'x') == [w, h]
  {
    assert 'x' !in w && 'x' !in h;
    SplitJoin([w, h], 'x');
    assert [w, h][1..] == [h];
    assert Join([w, h], 'x') == w + "x" + h;
  }

  lemma ParsePair(w: string, h: string, a: nat, b: nat)
    requires ParseU64(w) == Some(a) && ParseU64(h) == Some(b)
    ensures ParseAll([w, h]) == Some([a, b])
  {
    assert [w, h][1..] == [h] && [h][1..] == [];
    assert ParseAll([]) == Some([]);
    ParseAllCons([h], b, []);
    assert [b] + [] == [b];
    ParseAllCons([w, h], a, [b]);
    assert [a] + [b] == [a, b];
  }

  lemma SizeText(w: string, h: string, a: nat, b: nat)
    requires AllDigits(w) && AllDigits(h)
    requires ParseU64(w) == Some(a) && ParseU64(h) == Some(b)
    ensures RegionSize(w + "x" + h) == Some(a * b)
  {
    SidesText(w, h);
    ParsePair(w, h, a, b);
    assert Product([a, b]) == a * Product([b]);
  }

  lemma SizeOfRegion(width: nat, height: nat)
    requires width < U64_LIMIT && height < U64_LIMIT
    ensures RegionSize(Decimal(width) + "x" + Decimal(height)) == Some(width * height)
  {
    ParseU64Decimal(width);
    ParseU64Decimal(height);
    SizeText(Decimal(width), Decimal(height), width, height);
  }

  lemma RequiredOfCounts(counts: seq<nat>)
    requires |counts| >= 1 && Below(counts, U64_LIMIT)
    ensures Required(Join(Decimals(counts), ' ')) == Some(PRESENT_AREA * Sum(counts))
  {
    DecimalsHaveNo(counts, ' ');
    SplitJoin(Decimals(counts), ' ');
    ParseDecimals(counts);
  }

  lemma FitsFromParts(region: string, size: string, counts: string, skip: nat, area: nat, required: nat)
    requires SplitOnce(region, ':') == Some((size, counts)) && skip <= |counts|
    requires RegionSize(size) == Some(area) && Required(counts[skip..]) == Some(required)
    ensures FitsFrom(region, skip) == Some(area >= required)
  {
  }

  /** A region line is counted exactly when its area holds a 3x3 square for
      every present it lists. */
  lemma RegionFits(width: nat, height: nat, counts: seq<nat>)
    requires |counts| >= 1 && width < U64_LIMIT && height < U64_LIMIT && Below(counts, U64_LIMIT)
    ensures FitsFrom(Region(width, height, counts), 1) == Some(width * height >= PRESENT_AREA * Sum(counts))
  {
    var w, h, cs := Decimal(width), Decimal(height), Decimals(counts);
    RegionTextSplit(w, h, cs);
    SizeOfRegion(width, height);
    RequiredOfCounts(counts);
    var rest := " " + Join(cs, ' ');
    assert rest[1..] == Join(cs, ' ');
    FitsFromParts(Region(width, height, counts), w + "x" + h, rest, 1, width * height, PRESENT_AREA * Sum(counts));
  }

  // ------------------------------------------------------------ as written

  lemma SmallDecimals()
    ensures Decimal(3) == "3" && Decimal(10) == "10"
  {
  }

  lemma ZeroRequired()
    ensures Required("0") == Some(0)
  {
    assert Split("0", ' ') == ["0"];
    assert ParseU64("0") == Some(0);
    ParseAllCons(["0"], 0, []);
  }

  lemma TenText()
    ensures Join(Decimals([10]), ' ') == "10"
  {
    SmallDecimals();
    assert [10][1..] == [];
    assert Decimals([10]) == [Decimal(10)] + Decimals([]);
  }

  /** Read from byte 2, the counts of `3x3: 10` lose their leading `1`: the
      region is taken for one that needs no room. */
  lemma DroppedDigit()
    ensures FitsFrom(Region(3, 3, [10]), 2) == Some(true)
  {
    var w, cs := Decimal(3), Decimals([10]);
    RegionTextSplit(w, w, cs);
    var rest := " " + Join(cs, ' ');
    TenText();
    assert rest[2..] == "0";
    SizeOfRegion(3, 3);
    ZeroRequired();
    FitsFromParts(Region(3, 3, [10]), w + "x" + w, rest, 2, 9, 0);
  }

  /** Read from byte 1, the same region needs 90 cells and is not counted. */
  lemma TenPresentsDoNotFit()
    ensures FitsFrom(Region(3, 3, [10]), 1) == Some(false)
  {
    RegionFits(3, 3, [10]);
    assert Sum([10]) == 10;
  }

  /** The digits of a number of two digits or more, less the leading one. */
  function Trailing(n: nat): (t: string)
    requires n >= 10
    ensures |t| >= 1 && forall c <- t :: IsDigit(c)
  {
    Decimal(n)[1..]
  }

  /** The counts as `counts[2..]` reads them: the first without its
      leading digit, the others unchanged. */
  function DroppedLead(counts: seq<nat>): (r: seq<nat>)
    requires |counts| >= 1 && counts[0] >= 10
    ensures |r| == |counts| && r[1..] == counts[1..] && r[0] <= counts[0]
  {
    DigitsSuffix(Decimal(counts[0]));
    DecimalRoundTrip(counts[0]);
    [DigitsValue(Trailing(counts[0]))] + counts[1..]
  }

  /** Dropping the leading digit never makes a number larger. */
  lemma {:induction false} DigitsSuffix(s: string)
    requires |s| >= 1 && forall c <- s :: IsDigit(c)
    ensures DigitsValue(s[1..]) <= DigitsValue(s)
  {
    if |s| > 1 {
      var init := s[..|s| - 1];
      assert s[1..][..|s[1..]| - 1] == init[1..];
      assert s[1..][|s[1..]| - 1] == s[|s| - 1];
      DigitsSuffix(init);
    }
  }

  /** A join with its first piece replaced keeps everything after it. */
  lemma JoinHead(cs: seq<string>, x: string, sep: char)
    requires |cs| >= 1
    ensures var t := if |cs| == 1 then "" else [sep] + Join(cs[1..], sep);
      Join(cs, sep) == cs[0] + t && Join([x] + cs[1..], sep) == x + t
  {
    assert ([x] + cs[1..])[1..] == cs[1..];
  }

  /** Past the space and the first digit, the counts text is the first
      piece without its leading digit, then the other pieces. */
  lemma AsWrittenText(cs: seq<string>)
    requires |cs| >= 1 && |cs[0]| >= 2
    ensures var text := " " + Join(cs, ' ');
      |text| >= 2 && text[2..] == Join([cs[0][1..]] + cs[1..], ' ')
  {
    JoinHead(cs, cs[0][1..], ' ');
    var t := if |cs| == 1 then "" else [' '] + Join(cs[1..], ' ');
    assert (" " + (cs[0] + t))[2..] == cs[0][1..] + t;
  }

  /** The shortened first count still parses, to a value no larger. */
  lemma TrailingParses(n: nat)
    requires 10 <= n < U64_LIMIT
    ensures ParseU64(Trailing(n)) == Some(DigitsValue(Trailing(n)))
  {
    DigitsSuffix(Decimal(n));
    DecimalRoundTrip(n);
  }

  /** The pieces read after the dropped digit parse to the shortened first
      count and the other counts. */
  lemma AsWrittenPieces(counts: seq<nat>)
    requires |counts| >= 1 && counts[0] >= 10 && Below(counts, U64_LIMIT)
    ensures ParseAll([Trailing(counts[0])] + Decimals(counts[1..])) == Some(DroppedLead(counts))
  {
    var pieces := [Trailing(counts[0])] + Decimals(counts[1..]);
    TrailingParses(counts[0]);
    assert Below(counts[1..], U64_LIMIT);
    ParseDecimals(counts[1..]);
    assert pieces[1..] == Decimals(counts[1..]);
    ParseAllCons(pieces, DigitsValue(Trailing(counts[0])), counts[1..]);
  }

  /** Counts text whose pieces parse to `ns` needs nine cells per present
      of `ns`. */
  lemma RequiredOf(text: string, ns: seq<nat>)
    requires ParseAll(Split(text, ' ')) == Some(ns)
    ensures Required(text) == Some(PRESENT_AREA * Sum(ns))
  {
  }

  /** The pieces after the dropped digit hold no space, so splitting their
      join gives them back. */
  lemma AsWrittenSplit(counts: seq<nat>)
    requires |counts| >= 1 && counts[0] >= 10
    ensures var pieces := [Trailing(counts[0])] + Decimals(counts[1..]);
      Split(Join(pieces, ' '), ' ') == pieces
  {
    var pieces := [Trailing(counts[0])] + Decimals(counts[1..]);
    DecimalsHaveNo(counts[1..], ' ');
    assert ' ' !in Trailing(counts[0]);
    assert forall p <- pieces :: ' ' !in p;
    SplitJoin(pieces, ' ');
  }

  /** The shortened first count and the other counts, joined by spaces,
      need nine cells per present of them. */
  lemma AsWrittenRequired(counts: seq<nat>)
    requires |counts| >= 1 && counts[0] >= 10 && Below(counts, U64_LIMIT)
    ensures Required(Join([Trailing(counts[0])] + Decimals(counts[1..]), ' ')) == Some(PRESENT_AREA * Sum(DroppedLead(counts)))
  {
    var pieces := [Trailing(counts[0])] + Decimals(counts[1..]);
    AsWrittenSplit(counts);
    AsWrittenPieces(counts);
    RequiredOf(Join(pieces, ' '), DroppedLead(counts));
  }

  /** The counts `counts[2..]` reads from a region whose first count has two
      digits or more: that count without its leading digit, then the rest. */
  lemma AsWrittenCounts(counts: seq<nat>)
    requires |counts| >= 1 && counts[0] >= 10 && Below(counts, U64_LIMIT)
    ensures var text := " " + Join(Decimals(counts), ' ');
      |text| >= 2 && Required(text[2..]) == Some(PRESENT_AREA * Sum(DroppedLead(counts)))
  {
    var cs := Decimals(counts);
    assert cs[0] == Decimal(counts[0]) && cs[1..] == Decimals(counts[1..]);
    assert |cs[0]| == |Trailing(counts[0])| + 1;
    AsWrittenText(cs);
    assert [cs[0][1..]] + cs[1..] == [Trailing(counts[0])] + Decimals(counts[1..]);
    AsWrittenRequired(counts);
  }

  /** As written, a region whose first count has two digits or more is
      judged with that count's leading digit dropped. */
  lemma RegionFitsAsWritten(width: nat, height: nat, counts: seq<nat>)
    requires |counts| >= 1 && counts[0] >= 10
    requires width < U64_LIMIT && height < U64_LIMIT && Below(counts, U64_LIMIT)
    ensures FitsFrom(Region(width, height, counts), 2)
      == Some(width * height >= PRESENT_AREA * Sum(DroppedLead(counts)))
  {
    var w, h, cs := Decimal(width), Decimal(height), Decimals(counts);
    var rest := " " + Join(cs, ' ');
    var required := PRESENT_AREA * Sum(DroppedLead(counts));
    RegionTextSplit(w, h, cs);
    assert SplitOnce(Region(width, height, counts), ':') == Some((w + "x" + h, rest));
    SizeOfRegion(width, height);
    AsWrittenCounts(counts);
    assert |rest| >= 2 && Required(rest[2..]) == Some(required);
    FitsFromParts(Region(width, height, counts), w + "x" + h, rest, 2, width * height, required);
  }

  /** As written, a region whose first count is a single digit makes the
      source panic: the counts start with an empty piece. */
  lemma SingleDigitPanics(width: nat, height: nat, counts: seq<nat>)
    requires |counts| >= 1 && counts[0] < 10
    ensures FitsFrom(Region(width, height, counts), 2).None?
  {
    var w, h, cs := Decimal(width), Decimal(height), Decimals(counts);
    RegionTextSplit(w, h, cs);
    var rest := " " + Join(cs, ' ');
    JoinHead(cs, "", ' ');
    assert |cs[0]| == 1;
    var after := rest[2..];
    assert after == "" || after[0] == ' ';
    assert Split(after, ' ')[0] == "";
    assert ParseU64("").None?;
  }
}
