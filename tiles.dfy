/** Movie theater floor (src/bin/09.rs): red tiles listed as `x,y` lines.
    Part one looks for the largest rectangle with two red tiles at opposite
    corners; part two closes the list into a polygon (the last tile joined
    back to the first) and keeps only the rectangles that no polygon edge
    cuts.  Both parts follow the brute-force solutions. */
module Tiles {
  import opened Text
  import opened Arith

  datatype Tile = Tile(x: int, y: int)

  // ---------------------------------------------------------------- input

  /** One `x,y` line; `None` where the source's `unwrap` panics (no comma,
      or a side that is not an `i64`). */
  function ParseTile(line: string): Option<Tile>
  {
    match SplitOnce(line, ',')
    case None => None
    case Some((xs, ys)) =>
      match (ParseI64(xs), ParseI64(ys))
      case (Some(x), Some(y)) => Some(Tile(x, y))
      case _ => None
  }

  /** Every line read by `parse`, `None` as soon as one does not parse. */
  function ParseEach<T>(parse: string -> Option<T>, lines: seq<string>): (r: Option<seq<T>>)
    ensures r.Some? <==> forall i :: 0 <= i < |lines| ==> parse(lines[i]).Some?
    ensures r.Some? ==> |r.value| == |lines|
    ensures r.Some? ==> forall i :: 0 <= i < |lines| ==> Some(r.value[i]) == parse(lines[i])
  {
    if lines == [] then Some([])
    else
      match (parse(lines[0]), ParseEach(parse, lines[1..]))
      case (Some(t), Some(ts)) =>
        assert forall i :: 1 <= i < |lines| ==> lines[i] == lines[1..][i - 1];
        Some([t] + ts)
      case (None, _) => None
      case (_, None) =>
        assert exists i :: 1 <= i < |lines| && parse(lines[i]).None? by {
          var j :| 0 <= j < |lines[1..]| && parse(lines[1..][j]).None?;
          assert parse(lines[j + 1]).None?;
        }
        None
  }

  /** `parse_input`: one tile per line. */
  function ParseTiles(lines: seq<string>): (r: Option<seq<Tile>>)
    ensures r.Some? <==> forall i :: 0 <= i < |lines| ==> ParseTile(lines[i]).Some?
    ensures r.Some? ==> |r.value| == |lines|
    ensures r.Some? ==> forall i :: 0 <= i < |lines| ==> Some(r.value[i]) == ParseTile(lines[i])
  {
    ParseEach(ParseTile, lines)
  }

  /** A coordinate as Rust prints an `i64`. */
  function SignedDecimal(v: int): string
  {
    if v < 0 then "-" + Decimal(-v) else Decimal(v)
  }

  /** A tile as the puzzle input writes it. */
  function TileText(t: Tile): string
  {
    SignedDecimal(t.x) + "," + SignedDecimal(t.y)
  }

  predicate InI64(v: int) { -(I64_LIMIT as int) <= v < I64_LIMIT }

  lemma ParseSignedDecimal(v: int)
    requires InI64(v)
    ensures ParseI64(SignedDecimal(v)) == Some(v)
    ensures ',' !in SignedDecimal(v)
  {
    var n: nat := if v < 0 then -v else v;
    var d := Decimal(n);
    DecimalRoundTrip(n);
    assert AllDigits(d);
    if v < 0 {
      assert SignedDecimal(v)[1..] == d;
    } else {
      assert IsDigit(d[0]);
    }
  }

  /** Every tile with 64-bit coordinates reads back from its text. */
  lemma ParseTileText(t: Tile)
    requires InRange(t)
    ensures ParseTile(TileText(t)) == Some(t)
  {
    ParseSignedDecimal(t.x);
    ParseSignedDecimal(t.y);
    SplitOnceAt(SignedDecimal(t.x), ',', SignedDecimal(t.y));
  }

  /** A puzzle input listing the tiles, one line each. */
  function InputText(ts: seq<Tile>): string
  {
    if ts == [] then "" else TileText(ts[0]) + "\n" + InputText(ts[1..])
  }

  predicate InRange(t: Tile) { InI64(t.x) && InI64(t.y) }

  /** A tile's text is a line of its own, not ending in a carriage return. */
  lemma TileTextLine(t: Tile)
    ensures '\n' !in TileText(t) && |TileText(t)| > 0 && TileText(t)[|TileText(t)| - 1] != '\r'
  {
    var dx, dy := Decimal(Abs(t.x)), Decimal(Abs(t.y));
    assert AllDigits(dx) && AllDigits(dy);
    assert SignedDecimal(t.x) == dx || SignedDecimal(t.x) == "-" + dx;
    assert SignedDecimal(t.y) == dy || SignedDecimal(t.y) == "-" + dy;
    assert TileText(t)[|TileText(t)| - 1] == dy[|dy| - 1];
  }

  /** The lines of the input, one per tile. */
  function TileTexts(ts: seq<Tile>): (ls: seq<string>)
    ensures |ls| == |ts| && forall i :: 0 <= i < |ts| ==> ls[i] == TileText(ts[i])
  {
    if ts == [] then [] else [TileText(ts[0])] + TileTexts(ts[1..])
  }

  lemma {:induction false} LinesOfInput(ts: seq<Tile>)
    ensures Lines(InputText(ts)) == TileTexts(ts)
  {
    if ts != [] {
      LinesOfInputCons(ts);
      LinesOfInput(ts[1..]);
    }
  }

  lemma {:induction false} LinesOfInputCons(ts: seq<Tile>)
    requires ts != []
    ensures Lines(InputText(ts)) == [TileText(ts[0])] + Lines(InputText(ts[1..]))
  {
    TileTextLine(ts[0]);
    LinesCons(TileText(ts[0]), InputText(ts[1..]));
  }

  /** An input written from tiles with 64-bit coordinates parses back to
      them. */
  lemma ParseInputText(ts: seq<Tile>)
    requires forall t <- ts :: InRange(t)
    ensures ParseTiles(Lines(InputText(ts))) == Some(ts)
  {
    LinesOfInput(ts);
    var lines := TileTexts(ts);
    forall i | 0 <= i < |ts| ensures ParseTile(lines[i]) == Some(ts[i]) {
      ParseTileText(ts[i]);
    }
    var r := ParseTiles(lines).value;
    assert r == ts by {
      forall i | 0 <= i < |ts| ensures r[i] == ts[i] {
        assert Some(r[i]) == ParseTile(lines[i]);
      }
    }
  }

  // ---------------------------------------------------------------- rectangles

  /** `compute_area`: the number of tiles in the rectangle with opposite
      corners `p` and `q`, borders included; at least a full row and a full
      column of it. */
  function Area(p: Tile, q: Tile): (a: int)
    ensures a >= Abs(q.x - p.x) + 1 && a >= Abs(q.y - p.y) + 1
  {
    var w := Abs(q.x - p.x) + 1;
    var h := Abs(q.y - p.y) + 1;
    assert w * h >= w * 1 && w * h >= 1 * h;
    w * h
  }

  lemma AreaSymmetric(p: Tile, q: Tile)
    ensures Area(p, q) == Area(q, p)
  {
    assert Abs(q.x - p.x) == Abs(p.x - q.x) && Abs(q.y - p.y) == Abs(p.y - q.y);
  }

  /** `[xmin, xmax, ymin, ymax]`. */
  datatype Box = Box(xmin: int, xmax: int, ymin: int, ymax: int)

  predicate Inside(t: Tile, b: Box) { b.xmin <= t.x <= b.xmax && b.ymin <= t.y <= b.ymax }

  predicate StrictlyInside(t: Tile, b: Box) { b.xmin < t.x < b.xmax && b.ymin < t.y < b.ymax }

  /** `bbox`: a box holding both tiles, each of whose sides passes through
      one of them. */
  function BBox(p: Tile, q: Tile): (b: Box)
    ensures b.xmin <= b.xmax && b.ymin <= b.ymax
    ensures Inside(p, b) && Inside(q, b)
    ensures (b.xmin == p.x || b.xmin == q.x) && (b.xmax == p.x || b.xmax == q.x)
    ensures (b.ymin == p.y || b.ymin == q.y) && (b.ymax == p.y || b.ymax == q.y)
  {
    Box(if p.x <= q.x then p.x else q.x, if p.x <= q.x then q.x else p.x,
        if p.y <= q.y then p.y else q.y, if p.y <= q.y then q.y else p.y)
  }

  lemma BBoxSymmetric(p: Tile, q: Tile)
    ensures BBox(p, q) == BBox(q, p)
  {
  }

  /** No smaller box holds both tiles. */
  lemma BBoxSmallest(p: Tile, q: Tile, b: Box)
    requires Inside(p, b) && Inside(q, b)
    ensures b.xmin <= BBox(p, q).xmin && BBox(p, q).xmax <= b.xmax
    ensures b.ymin <= BBox(p, q).ymin && BBox(p, q).ymax <= b.ymax
  {
  }

  /** The area counts the tiles of the bounding box. */
  lemma AreaOfBBox(p: Tile, q: Tile)
    ensures Area(p, q) == (BBox(p, q).xmax - BBox(p, q).xmin + 1) * (BBox(p, q).ymax - BBox(p, q).ymin + 1)
  {
    var b := BBox(p, q);
    assert Abs(q.x - p.x) == b.xmax - b.xmin && Abs(q.y - p.y) == b.ymax - b.ymin;
  }

  // ---------------------------------------------------------------- edges

  /** A polygon edge, from one red tile to the next. */
  datatype Segment = Segment(from: Tile, to: Tile)

  predicate AxisAligned(l: Segment) { l.from.x == l.to.x || l.from.y == l.to.y }

  /** The tiles an axis-aligned segment passes over. */
  predicate OnSegment(t: Tile, l: Segment) { AxisAligned(l) && Inside(t, BBox(l.from, l.to)) }

  /** `bbox_intersects_line`: a vertical segment strictly between the box's
      left and right sides whose span reaches past the box's bottom and top
      edges into it, or the same for a horizontal segment. Only an
      axis-aligned edge can cut a box, and an edge lying along one of its
      sides never does. */
  predicate Intersects(b: Box, l: Segment): (r: bool)
    ensures r ==> AxisAligned(l)
    ensures ((l.from.x == l.to.x && (l.from.x == b.xmin || l.from.x == b.xmax))
          || (l.from.y == l.to.y && (l.from.y == b.ymin || l.from.y == b.ymax))) ==> !r
  {
    var s := BBox(l.from, l.to);
    (s.xmin == s.xmax && s.xmin > b.xmin && s.xmax < b.xmax && !(s.ymax <= b.ymin || s.ymin >= b.ymax))
    || (s.ymin == s.ymax && s.ymin > b.ymin && s.ymax < b.ymax && !(s.xmax <= b.xmin || s.xmin >= b.xmax))
  }

  /** The direction of an edge does not matter. */
  lemma IntersectsReversed(b: Box, l: Segment)
    ensures Intersects(b, Segment(l.to, l.from)) == Intersects(b, l)
  {
    BBoxSymmetric(l.from, l.to);
  }

  /** An edge over a tile strictly inside the box cuts it. */
  lemma CutsInterior(b: Box, l: Segment, t: Tile)
    requires OnSegment(t, l) && StrictlyInside(t, b)
    ensures Intersects(b, l)
  {
  }

  /** An edge that cuts a box is axis-aligned and passes over a tile of the
      closed box that lies strictly between two opposite sides. */
  lemma IntersectsMeetsBox(b: Box, l: Segment)
    requires b.xmin <= b.xmax && b.ymin <= b.ymax
    requires Intersects(b, l)
    ensures AxisAligned(l)
    ensures exists t :: OnSegment(t, l) && Inside(t, b) && (b.xmin < t.x < b.xmax || b.ymin < t.y < b.ymax)
  {
    var s := BBox(l.from, l.to);
    if s.xmin == s.xmax && s.xmin > b.xmin && s.xmax < b.xmax && !(s.ymax <= b.ymin || s.ymin >= b.ymax) {
      var t := Tile(s.xmin, if s.ymin < b.ymin then b.ymin else s.ymin);
      assert OnSegment(t, l) && Inside(t, b);
    } else {
      var t := Tile(if s.xmin < b.xmin then b.xmin else s.xmin, s.ymin);
      assert OnSegment(t, l) && Inside(t, b);
    }
  }

  /** A rectangle spanned by a single tile is never cut. */
  lemma PointBoxUncut(t: Tile, l: Segment)
    ensures !Intersects(BBox(t, t), l)
  {
  }

  // ---------------------------------------------------------------- polygon

  /** `pos.push(pos[0])`: the list closed back to its first tile. */
  function Closed(tiles: seq<Tile>): (c: seq<Tile>)
    requires |tiles| > 0
    ensures |c| == |tiles| + 1 && c[..|tiles|] == tiles && c[|tiles|] == tiles[0]
  {
    tiles + [tiles[0]]
  }

  /** `windows(2).any(...)`: some pair of consecutive tiles on the path forms
      an edge that cuts the box. */
  function Cut(b: Box, path: seq<Tile>): (r: bool)
    ensures r <==> exists k :: 0 <= k < |path| - 1 && Intersects(b, Segment(path[k], path[k + 1]))
  {
    if |path| < 2 then false
    else
      var r := Intersects(b, Segment(path[0], path[1])) || Cut(b, path[1..]);
      assert r ==> exists k :: 0 <= k < |path| - 1 && Intersects(b, Segment(path[k], path[k + 1])) by {
        if !Intersects(b, Segment(path[0], path[1])) && r {
          var k :| 0 <= k < |path[1..]| - 1 && Intersects(b, Segment(path[1..][k], path[1..][k + 1]));
          assert path[k + 1] == path[1..][k] && path[k + 2] == path[1..][k + 1];
        }
      }
      assert (exists k :: 0 <= k < |path| - 1 && Intersects(b, Segment(path[k], path[k + 1]))) ==> r by {
        if exists k :: 0 <= k < |path| - 1 && Intersects(b, Segment(path[k], path[k + 1])) {
          var k :| 0 <= k < |path| - 1 && Intersects(b, Segment(path[k], path[k + 1]));
          if k > 0 {
            assert path[1..][k - 1] == path[k] && path[1..][k] == path[k + 1];
          }
        }
      }
      r
  }

  /** The `k`-th edge of the polygon: from tile `k` to the next one, the
      last tile joined back to the first. */
  function EdgeAt(tiles: seq<Tile>, k: nat): Segment
    requires k < |tiles|
  {
    Segment(tiles[k], tiles[if k + 1 < |tiles| then k + 1 else 0])
  }

  /** The closed list's windows are exactly the polygon's edges. */
  lemma CutClosed(b: Box, tiles: seq<Tile>)
    requires |tiles| > 0
    ensures Cut(b, Closed(tiles)) <==> exists k :: 0 <= k < |tiles| && Intersects(b, EdgeAt(tiles, k))
  {
    var c := Closed(tiles);
    forall k | 0 <= k < |tiles| ensures Segment(c[k], c[k + 1]) == EdgeAt(tiles, k) {
      assert c[k] == c[..|tiles|][k];
      if k + 1 < |tiles| {
        assert c[k + 1] == c[..|tiles|][k + 1];
      }
    }
  }

  /** The polygon does not depend on which tile the list starts from. */
  lemma CutRotated(b: Box, tiles: seq<Tile>)
    requires |tiles| > 0
    ensures Cut(b, Closed(tiles[1..] + [tiles[0]])) == Cut(b, Closed(tiles))
  {
    var n := |tiles|;
    var rot := tiles[1..] + [tiles[0]];
    CutClosed(b, tiles);
    CutClosed(b, rot);
    if Cut(b, Closed(rot)) {
      var k :| 0 <= k < n && Intersects(b, EdgeAt(rot, k));
      RotatedEdge(tiles, k);
    }
    if Cut(b, Closed(tiles)) {
      var k :| 0 <= k < n && Intersects(b, EdgeAt(tiles, k));
      var k' := if k == 0 then n - 1 else k - 1;
      RotatedEdge(tiles, k');
    }
  }

  /** Edge `k` of the rotated list is edge `k + 1` of the original. */
  lemma RotatedEdge(tiles: seq<Tile>, k: nat)
    requires k < |tiles|
    ensures EdgeAt(tiles[1..] + [tiles[0]], k) == EdgeAt(tiles, if k + 1 < |tiles| then k + 1 else 0)
  {
    var n := |tiles|;
    var rot := tiles[1..] + [tiles[0]];
    assert rot[k] == tiles[if k + 1 < n then k + 1 else 0];
    if k + 1 < n {
      assert rot[k + 1] == tiles[if k + 2 < n then k + 2 else 0];
    }
  }

  /** The rectangle with corners `tiles[i]` and `tiles[j]` is cut by no edge
      of the closed polygon. */
  predicate Fits(tiles: seq<Tile>, i: nat, j: nat)
    requires 0 < |tiles| && i < |tiles| && j < |tiles|
  {
    !Cut(BBox(tiles[i], tiles[j]), Closed(tiles))
  }

  // ---------------------------------------------------------------- part one

  /** `m` is the largest area over all pairs of tiles, and 0 when there are
      none. */
  ghost predicate IsLargest(tiles: seq<Tile>, m: int)
  {
    (forall i, j :: 0 <= i < |tiles| && 0 <= j < |tiles| ==> Area(tiles[i], tiles[j]) <= m)
    && (if tiles == [] then m == 0
        else exists i, j :: 0 <= i < |tiles| && 0 <= j < |tiles| && Area(tiles[i], tiles[j]) == m)
  }

  /** Every pair before `(i, j)` in the loops' order has area at most `m`. */
  ghost predicate Bounded(pos: seq<Tile>, m: int, i: int, j: int)
  {
    forall a, b :: 0 <= a < |pos| && 0 <= b < |pos| && (a < i || (a == i && b < j)) ==> Area(pos[a], pos[b]) <= m
  }

  lemma BoundedStep(pos: seq<Tile>, m: int, m': int, i: nat, j: nat)
    requires i < |pos| && j < |pos| && Bounded(pos, m, i, j)
    requires m <= m' && Area(pos[i], pos[j]) <= m'
    ensures Bounded(pos, m', i, j + 1)
  {
    forall a, b | 0 <= a < |pos| && 0 <= b < |pos| && (a < i || (a == i && b < j + 1))
      ensures Area(pos[a], pos[b]) <= m'
    {
      if a == i && b == j {
      } else {
        assert Area(pos[a], pos[b]) <= m;
      }
    }
  }

  /** `m` is the area of the pair `(wi, wj)`, or 0 before the first pair. */
  ghost predicate Attained(pos: seq<Tile>, m: int, wi: nat, wj: nat, first: bool)
  {
    if first then m == 0 else wi < |pos| && wj < |pos| && Area(pos[wi], pos[wj]) == m
  }

  /** The double loop of `part_one_brute`. */
  method LargestArea(pos: seq<Tile>) returns (maxArea: int)
    ensures IsLargest(pos, maxArea)
  {
    maxArea := 0;
    ghost var wi: nat, wj: nat := 0, 0;
    for i := 0 to |pos|
      invariant Bounded(pos, maxArea, i, 0)
      invariant Attained(pos, maxArea, wi, wj, i == 0)
    {
      for j := 0 to |pos|
        invariant Bounded(pos, maxArea, i, j)
        invariant Attained(pos, maxArea, wi, wj, i == 0 && j == 0)
      {
        var area := Area(pos[i], pos[j]);
        ghost var before := maxArea;
        if area > maxArea {
          maxArea := area;
          wi, wj := i, j;
        }
        BoundedStep(pos, before, maxArea, i, j);
      }
      assert Bounded(pos, maxArea, i + 1, 0);
    }
    assert Bounded(pos, maxArea, |pos|, 0);
  }

  /** `part_one_brute`; `None` where parsing panics. */
  method PartOneBrute(input: string) returns (r: Option<int>)
    ensures r.Some? <==> ParseTiles(Lines(input)).Some?
    ensures r.Some? ==> IsLargest(ParseTiles(Lines(input)).value, r.value)
  {
    var pos := ParseTiles(Lines(input));
    if pos.None? {
      return None;
    }
    var maxArea := LargestArea(pos.value);
    return Some(maxArea);
  }

  // ---------------------------------------------------------------- part two

  /** A rectangle as `part_two_brute` stores it: both corners and the area. */
  datatype Rectangle = Rectangle(p: Tile, q: Tile, area: int)

  function RectangleOf(pos: seq<Tile>, i: nat, j: nat): Rectangle
    requires i < |pos| && j < |pos|
  {
    Rectangle(pos[i], pos[j], Area(pos[i], pos[j]))
  }

  /** `rects` holds exactly the rectangles of all pairs of tiles. */
  ghost predicate AllPairs(pos: seq<Tile>, rects: seq<Rectangle>)
  {
    (forall rc <- rects :: exists i, j :: 0 <= i < |pos| && 0 <= j < |pos| && rc == RectangleOf(pos, i, j))
    && forall i, j :: 0 <= i < |pos| && 0 <= j < |pos| ==> RectangleOf(pos, i, j) in rects
  }

  /** The rectangles of the pairs `(i, 0)` to `(i, j - 1)`. */
  function Row(pos: seq<Tile>, i: nat, j: nat): (row: seq<Rectangle>)
    requires i < |pos| && j <= |pos|
    ensures |row| == j
  {
    if j == 0 then [] else Row(pos, i, j - 1) + [RectangleOf(pos, i, j - 1)]
  }

  lemma {:induction false} RowAt(pos: seq<Tile>, i: nat, j: nat, b: nat)
    requires i < |pos| && b < j <= |pos|
    ensures Row(pos, i, j)[b] == RectangleOf(pos, i, b)
  {
    if b < j - 1 {
      RowAt(pos, i, j - 1, b);
    }
  }

  /** The rectangles in the order the double loop pushes them: row by row. */
  function Rows(pos: seq<Tile>, i: nat): seq<Rectangle>
    requires i <= |pos|
  {
    if i == 0 then [] else Rows(pos, i - 1) + Row(pos, i - 1, |pos|)
  }

  lemma {:induction false} RowsSound(pos: seq<Tile>, i: nat)
    requires i <= |pos|
    ensures forall rc <- Rows(pos, i) :: exists a, b :: 0 <= a < i && 0 <= b < |pos| && rc == RectangleOf(pos, a, b)
  {
    if i > 0 {
      RowsSound(pos, i - 1);
      var row := Row(pos, i - 1, |pos|);
      forall rc <- Rows(pos, i)
        ensures exists a, b :: 0 <= a < i && 0 <= b < |pos| && rc == RectangleOf(pos, a, b)
      {
        if rc !in Rows(pos, i - 1) {
          var b :| 0 <= b < |row| && row[b] == rc;
          RowAt(pos, i - 1, |pos|, b);
        }
      }
    }
  }

  lemma {:induction false} RowsComplete(pos: seq<Tile>, i: nat)
    requires i <= |pos|
    ensures forall a, b :: 0 <= a < i && 0 <= b < |pos| ==> RectangleOf(pos, a, b) in Rows(pos, i)
  {
    forall a, b | 0 <= a < i && 0 <= b < |pos| ensures RectangleOf(pos, a, b) in Rows(pos, i) {
      RowsHas(pos, i, a, b);
    }
  }

  /** Row `a` is pushed in full before row `i` starts. */
  lemma {:induction false} RowsHas(pos: seq<Tile>, i: nat, a: nat, b: nat)
    requires a < i <= |pos| && b < |pos|
    ensures RectangleOf(pos, a, b) in Rows(pos, i)
  {
    if a == i - 1 {
      RowAt(pos, a, |pos|, b);
      RowsGrow(pos, i, RectangleOf(pos, a, b));
    } else {
      RowsHas(pos, i - 1, a, b);
      RowsGrow(pos, i, RectangleOf(pos, a, b));
    }
  }

  lemma {:induction false} RowsGrow(pos: seq<Tile>, i: nat, rc: Rectangle)
    requires 0 < i <= |pos|
    ensures rc in Rows(pos, i - 1) ==> rc in Rows(pos, i)
    ensures rc in Row(pos, i - 1, |pos|) ==> rc in Rows(pos, i)
  {
    assert Rows(pos, i) == Rows(pos, i - 1) + Row(pos, i - 1, |pos|);
  }

  /** The double loop of `part_two_brute` filling `rectangles`. */
  method Rectangles(pos: seq<Tile>) returns (rects: seq<Rectangle>)
    ensures rects == Rows(pos, |pos|)
    ensures AllPairs(pos, rects)
  {
    rects := [];
    for i := 0 to |pos|
      invariant rects == Rows(pos, i)
    {
      for j := 0 to |pos|
        invariant rects == Rows(pos, i) + Row(pos, i, j)
      {
        rects := rects + [Rectangle(pos[i], pos[j], Area(pos[i], pos[j]))];
      }
    }
    RowsSound(pos, |pos|);
    RowsComplete(pos, |pos|);
  }

  /** The `filter` and `map` of `part_two_brute`: the areas of the
      rectangles whose box no edge of `path` cuts. */
  function Uncut(rects: seq<Rectangle>, path: seq<Tile>): (areas: seq<int>)
    ensures forall x :: x in areas <==> exists rc <- rects :: !Cut(BBox(rc.p, rc.q), path) && rc.area == x
  {
    if rects == [] then []
    else
      var rest := Uncut(rects[1..], path);
      assert forall rc <- rects[1..] :: rc in rects;
      assert forall rc <- rects :: rc == rects[0] || rc in rects[1..];
      if Cut(BBox(rects[0].p, rects[0].q), path) then rest else [rects[0].area] + rest
  }

  /** Rust's `Iterator::max`: `None` on an empty sequence. */
  function Max(xs: seq<int>): (r: Option<int>)
    ensures r.None? <==> xs == []
    ensures r.Some? ==> r.value in xs && forall x <- xs :: x <= r.value
  {
    if xs == [] then None
    else
      match Max(xs[1..])
      case None => Some(xs[0])
      case Some(m) =>
        assert forall x <- xs :: x == xs[0] || x in xs[1..];
        Some(if xs[0] > m then xs[0] else m)
  }

  /** `m` is the largest area over the pairs of tiles whose rectangle fits
      inside the polygon. */
  ghost predicate IsLargestFitting(tiles: seq<Tile>, m: int)
    requires |tiles| > 0
  {
    (forall i, j :: 0 <= i < |tiles| && 0 <= j < |tiles| && Fits(tiles, i, j) ==> Area(tiles[i], tiles[j]) <= m)
    && exists i, j :: 0 <= i < |tiles| && 0 <= j < |tiles| && Fits(tiles, i, j) && Area(tiles[i], tiles[j]) == m
  }

  /** `part_two_brute`; `None` where parsing panics or the list is empty (the
      source indexes `pos[0]`). A rectangle on a single tile always fits, so
      a non-empty list always has an answer. */
  method PartTwoBrute(input: string) returns (r: Option<int>)
    ensures r.Some? <==> ParseTiles(Lines(input)).Some? && |ParseTiles(Lines(input)).value| > 0
    ensures r.Some? ==> IsLargestFitting(ParseTiles(Lines(input)).value, r.value)
  {
    var parsed := ParseTiles(Lines(input));
    if parsed.None? {
      return None;
    }
    var pos := parsed.value;
    var rects := Rectangles(pos);
    if |pos| == 0 {
      return None;
    }
    var closed := pos + [pos[0]];
    var areas := Uncut(rects, closed);
    LargestFitting(pos, rects, areas);
    r := Max(areas);
  }

  lemma LargestFitting(pos: seq<Tile>, rects: seq<Rectangle>, areas: seq<int>)
    requires |pos| > 0 && AllPairs(pos, rects) && areas == Uncut(rects, Closed(pos))
    ensures Max(areas).Some? && IsLargestFitting(pos, Max(areas).value)
  {
    PointFits(pos, 0);
    UncutHas(pos, rects, 0, 0);
    var m := Max(areas).value;
    var rc :| rc in rects && !Cut(BBox(rc.p, rc.q), Closed(pos)) && rc.area == m;
    var i, j :| 0 <= i < |pos| && 0 <= j < |pos| && rc == RectangleOf(pos, i, j);
    assert rc.p == pos[i] && rc.q == pos[j];
    assert Fits(pos, i, j);
    forall a, b | 0 <= a < |pos| && 0 <= b < |pos| && Fits(pos, a, b)
      ensures Area(pos[a], pos[b]) <= m
    {
      UncutHas(pos, rects, a, b);
    }
  }

  /** The area of every fitting pair is among the uncut areas. */
  lemma UncutHas(pos: seq<Tile>, rects: seq<Rectangle>, i: nat, j: nat)
    requires |pos| > 0 && i < |pos| && j < |pos| && AllPairs(pos, rects) && Fits(pos, i, j)
    ensures Area(pos[i], pos[j]) in Uncut(rects, Closed(pos))
  {
    var rc := RectangleOf(pos, i, j);
    assert rc in rects && rc.p == pos[i] && rc.q == pos[j];
  }

  /** A rectangle on a single tile fits whatever the polygon. */
  lemma PointFits(pos: seq<Tile>, i: nat)
    requires i < |pos|
    ensures Fits(pos, i, i)
  {
    var c := Closed(pos);
    forall k | 0 <= k < |c| - 1 ensures !Intersects(BBox(pos[i], pos[i]), Segment(c[k], c[k + 1])) {
      PointBoxUncut(pos[i], Segment(c[k], c[k + 1]));
    }
  }
}
