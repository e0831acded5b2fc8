/** A rectangular grid stored row by row in one vector (mygrid/src/grid.rs).
    The cell at line `l` and column `c` lives at offset `l * width + c`. */
module Grids {

  import opened Text
  import opened Arith
  import opened Points

  // ---- text layout ----

  /** The characters of a text with its line feeds removed. */
  function Unbroken(input: string): (s: string)
    ensures '\n' !in s && |s| <= |input|
  {
    if input == [] then []
    else if input[0] == '\n' then Unbroken(input[1..])
    else [input[0]] + Unbroken(input[1..])
  }

  lemma {:induction false} UnbrokenConcat(a: string, b: string)
    ensures Unbroken(a + b) == Unbroken(a) + Unbroken(b)
  {
    if a != [] {
      assert (a + b)[0] == a[0] && (a + b)[1..] == a[1..] + b;
      UnbrokenConcat(a[1..], b);
      if a[0] == '\n' {
        assert Unbroken(a + b) == Unbroken(a[1..] + b);
      } else {
        assert Unbroken(a + b) == [a[0]] + Unbroken(a[1..] + b);
        assert Unbroken(a) == [a[0]] + Unbroken(a[1..]);
      }
    } else {
      assert a + b == b;
    }
  }

  lemma {:induction false} UnbrokenLine(s: string)
    requires '\n' !in s
    ensures Unbroken(s) == s
  {
    if s != [] {
      UnbrokenLine(s[1..]);
    }
  }

  /** Rows written one per line. */
  function JoinLines(rows: seq<string>): string
  {
    if rows == [] then []
    else if |rows| == 1 then rows[0]
    else rows[0] + "\n" + JoinLines(rows[1..])
  }

  function Flatten<T>(rows: seq<seq<T>>): seq<T>
  {
    if rows == [] then [] else rows[0] + Flatten(rows[1..])
  }

  predicate Rectangular<T>(rows: seq<seq<T>>, width: nat)
  {
    forall r :: 0 <= r < |rows| ==> |rows[r]| == width
  }

  predicate NoLineFeeds(rows: seq<string>)
  {
    forall r :: 0 <= r < |rows| ==> '\n' !in rows[r]
  }

  /** Removing the line feeds of rows written one per line leaves the rows
      end to end, whether or not the text ends with a line feed. */
  lemma {:induction false} UnbrokenRows(rows: seq<string>)
    requires NoLineFeeds(rows)
    ensures Unbroken(JoinLines(rows)) == Flatten(rows)
    ensures Unbroken(JoinLines(rows) + "\n") == Flatten(rows)
  {
    if rows != [] {
      UnbrokenLine(rows[0]);
      UnbrokenLine([]);
      assert Unbroken("\n") == [];
      if |rows| == 1 {
        UnbrokenConcat(rows[0], "\n");
        assert Flatten(rows) == rows[0] + Flatten(rows[1..]);
      } else {
        var rest := JoinLines(rows[1..]);
        UnbrokenRows(rows[1..]);
        assert JoinLines(rows) == rows[0] + ("\n" + rest);
        UnbrokenConcat(rows[0], "\n" + rest);
        UnbrokenConcat("\n", rest);
        assert JoinLines(rows) + "\n" == rows[0] + ("\n" + (rest + "\n"));
        UnbrokenConcat(rows[0], "\n" + (rest + "\n"));
        UnbrokenConcat("\n", rest + "\n");
      }
    }
  }

  /** The first line of rows written one per line is the first row. */
  lemma FirstLine(rows: seq<string>)
    requires rows != [] && NoLineFeeds(rows) && rows[0] != []
    requires rows[0][|rows[0]| - 1] != '\r'
    ensures Lines(JoinLines(rows)) != [] && Lines(JoinLines(rows))[0] == rows[0]
  {
    if |rows| == 1 {
      assert Find(rows[0], '\n') == None;
    } else {
      LinesCons(rows[0], JoinLines(rows[1..]));
    }
  }

  lemma {:induction false} FlattenIndex<T>(rows: seq<seq<T>>, width: nat, r: nat, c: nat)
    requires Rectangular(rows, width) && r < |rows| && c < width
    ensures |Flatten(rows)| == |rows| * width
    ensures r * width + c < |Flatten(rows)| && Flatten(rows)[r * width + c] == rows[r][c]
  {
    if r == 0 {
      FlattenLength(rows, width);
    } else {
      FlattenIndex(rows[1..], width, r - 1, c);
      assert r * width + c == width + ((r - 1) * width + c);
    }
  }

  lemma {:induction false} FlattenLength<T>(rows: seq<seq<T>>, width: nat)
    requires Rectangular(rows, width)
    ensures |Flatten(rows)| == |rows| * width
  {
    if rows != [] {
      FlattenLength(rows[1..], width);
      assert |rows| * width == width + (|rows| - 1) * width;
    }
  }

  // ---- positions ----

  /** `iter_positions`: every position of a `width` by `height` grid, line by
      line and, within a line, column by column. */
  function Positions(width: nat, height: nat): (ps: seq<Point>)
    ensures |ps| == width * height
  {
    if height == 0 then []
    else
      assert width * height == width * (height - 1) + width;
      Positions(width, height - 1) + seq(width, c => Point(height - 1, c))
  }

  lemma {:induction false} PositionAt(width: nat, height: nat, i: nat)
    requires i < width * height
    ensures Positions(width, height)[i] == Point(i / width, i % width)
  {
    var prefix := width * (height - 1);
    if i < prefix {
      PositionAt(width, height - 1, i);
    } else {
      DivModUnique(i, width, height - 1, i - prefix);
    }
  }

  /** Position of the cell at `offset` in a grid `width` cells wide. */
  function PositionOf(offset: nat, width: nat): Point
    requires width > 0
  {
    Point(offset / width, offset % width)
  }

  /** Column `column` of line `line` is column `column % width` of line
      `line + column / width`. */
  lemma WrappedOffset(line: int, column: int, width: nat)
    ensures width > 0 ==> (line + column / width) * width + column % width == line * width + column
  {
    if width > 0 {
      assert column == column / width * width + column % width;
      assert (line + column / width) * width == line * width + column / width * width;
    }
  }

  /** How many whole rows of `width` cells `n` cells fill. */
  function RowsOf(n: nat, width: nat): (h: nat)
    requires width > 0
    ensures width * h <= n
  {
    WholeRows(n, width);
    n / width
  }

  lemma OffsetOfPosition(offset: nat, width: nat)
    requires width > 0
    ensures PositionOf(offset, width).line * width + PositionOf(offset, width).column == offset
  {
  }

  predicate InBoundsOf(width: nat, height: nat, p: Point)
  {
    0 <= p.column < width && 0 <= p.line < height
  }

  /** A cell inside the bounds has an offset inside `width * height`. */
  lemma CellOffset(width: nat, height: nat, p: Point)
    requires InBoundsOf(width, height, p)
    ensures p.line * width + p.column < width * height
    ensures PositionOf(p.line * width + p.column, width) == p
  {
    MulLe(p.line + 1, height, width);
    DivModUnique(p.line * width + p.column, width, p.line, p.column);
  }

  lemma PositionsAreInBounds(width: nat, height: nat, p: Point)
    ensures p in Positions(width, height) <==> InBoundsOf(width, height, p)
  {
    var ps := Positions(width, height);
    if InBoundsOf(width, height, p) {
      CellOffset(width, height, p);
      PositionAt(width, height, p.line * width + p.column);
    }
    if p in ps {
      var i :| 0 <= i < |ps| && ps[i] == p;
      PositionAt(width, height, i);
      DivBetween(i, width, 0, height);
    }
  }

  // ---- resize and clamp ----

  /** The cell of the `w`-wide window starting at `min` that lands on offset
      `i`: the old cell under it, or `default` outside the old grid. */
  function Pick<T>(content: seq<T>, width: nat, height: nat, min: Point, w: nat, i: nat, default: T): T
    requires width * height <= |content| && w > 0
  {
    var p := Point(min.line + i / w, min.column + i % w);
    if InBoundsOf(width, height, p) then
      CellOffset(width, height, p);
      content[p.line * width + p.column]
    else default
  }

  /** `w` by `h` cells of the old grid, starting at `min`. */
  function Window<T>(content: seq<T>, width: nat, height: nat, min: Point, w: nat, h: nat, default: T): (r: seq<T>)
    requires width * height <= |content|
    ensures |r| == w * h
  {
    if w == 0 then []
    else seq(w * h, i requires 0 <= i < w * h => Pick(content, width, height, min, w, i, default))
  }

  /** Every cell of the window holds the old cell at the same place, or the
      default outside the old grid. */
  lemma WindowCell<T>(content: seq<T>, width: nat, height: nat, min: Point, w: nat, h: nat, default: T, p: Point)
    requires width * height <= |content| && InBoundsOf(w, h, p)
    ensures p.line * w + p.column < w * h
    ensures var q := Point(min.line + p.line, min.column + p.column);
      if InBoundsOf(width, height, q) then
        q.line * width + q.column < |content|
        && Window(content, width, height, min, w, h, default)[p.line * w + p.column] == content[q.line * width + q.column]
      else Window(content, width, height, min, w, h, default)[p.line * w + p.column] == default
  {
    CellOffset(w, h, p);
    var q := Point(min.line + p.line, min.column + p.column);
    if InBoundsOf(width, height, q) {
      CellOffset(width, height, q);
    }
  }

  // ---- the grid ----

  class Grid<T(==)> {
    var width: nat
    var height: nat
    var content: seq<T>

    /** Every cell inside the bounds has its slot in `content`. */
    predicate Valid()
      reads this
    {
      width * height <= |content|
    }

    /** `new`: `width * height` copies of `default`. */
    constructor (width: nat, height: nat, default: T)
      ensures Valid() && this.width == width && this.height == height
      ensures content == seq(width * height, _ => default)
    {
      this.width := width;
      this.height := height;
      content := seq(width * height, _ => default);
    }

    /** `new_from_str`: the width is the first line's length, the cells are
        the text's characters without line feeds, and the height is however
        many whole rows they fill. */
    constructor FromStr(input: string, mapChar: char -> T)
      requires Lines(input) != [] && |Lines(input)[0]| > 0
      ensures Valid() && width == |Lines(input)[0]|
      ensures content == MapCells(Unbroken(input), mapChar)
      ensures height == |content| / width
    {
      var chars := Unbroken(input);
      var w := |Lines(input)[0]|;
      var cells := MapCells(chars, mapChar);
      var h := |cells| / w;
      WholeRows(|cells|, w);
      assert w * h <= |cells|;
      width, height, content := w, h, cells;
    }

    /** `new_from_str_capture_start`: as `new_from_str`, and the position of
        the last character `isStart` accepts, which must exist. */
    static method FromStrCaptureStart(input: string, mapChar: char -> T, isStart: char -> bool)
      returns (g: Grid<T>, start: Point)
      requires Lines(input) != [] && |Lines(input)[0]| > 0
      requires LastIndex(Unbroken(input), isStart).Some?
      ensures fresh(g) && g.Valid() && g.width == |Lines(input)[0]|
      ensures g.content == MapCells(Unbroken(input), mapChar) && g.height == |g.content| / g.width
      ensures start == PositionOf(LastIndex(Unbroken(input), isStart).value, g.width)
      ensures start.line * g.width + start.column == LastIndex(Unbroken(input), isStart).value
    {
      var chars := Unbroken(input);
      var width := |Lines(input)[0]|;
      var content: seq<T> := [];
      var found: Option<Point> := None;
      var i := 0;
      while i < |chars|
        invariant 0 <= i <= |chars|
        invariant content == MapCells(chars[..i], mapChar)
        invariant found == match LastIndex(chars[..i], isStart)
                             case None => None
                             case Some(k) => Some(PositionOf(k, width))
      {
        var c := chars[i];
        CaptureStep(chars, i, mapChar, isStart);
        var t := mapChar(c);
        if isStart(c) {
          found := Some(PositionOf(i, width));
        }
        content := content + [t];
        i := i + 1;
      }
      assert chars[..i] == chars;
      g := new Grid.FromVec(content, width);
      start := found.value;
      OffsetOfPosition(LastIndex(chars, isStart).value, width);
    }

    /** `from_vec`: as many whole rows as the cells fill. */
    constructor FromVec(content: seq<T>, width: nat)
      requires width > 0
      ensures Valid() && this.width == width && this.content == content
      ensures height == |content| / width
    {
      this.width := width;
      this.content := content;
      height := |content| / width;
      new;
      WholeRows(|content|, width);
    }

    /** `is_in_bounds`. */
    function IsInBounds(p: Point): (r: bool)
      reads this
      ensures r <==> p in Positions(width, height)
    {
      PositionsAreInBounds(width, height, p);
      InBoundsOf(width, height, p)
    }

    /** `Index`: no bounds check beyond the vector's own, so a column past
        the width reads into the next line. */
    function Get(p: Point): (t: T)
      reads this
      requires 0 <= p.line && 0 <= p.column && p.line * width + p.column < |content|
      ensures t in content
    {
      content[p.line * width + p.column]
    }

    /** What `Index` reads at column `column` of line `line` is column
        `column % width` of line `line + column / width`. */
    lemma GetWraps(p: Point)
      requires 0 <= p.line && 0 <= p.column && p.line * width + p.column < |content|
      requires width > 0
      ensures Get(p) == content[(p.line + p.column / width) * width + p.column % width]
      ensures p.column >= width ==> Get(p) == Get(Point(p.line + 1, p.column - width))
    {
      WrappedOffset(p.line, p.column, width);
    }

    /** `get_item`: the cell when the point is inside the grid. */
    function GetItem(p: Point): (r: Option<T>)
      reads this
      requires Valid()
      ensures r.Some? <==> IsInBounds(p)
      ensures r.Some? ==> p.line * width + p.column < |content| && r.value == Get(p)
    {
      if IsInBounds(p) then
        CellOffset(width, height, p);
        Some(content[p.line * width + p.column])
      else None
    }

    /** `IndexMut`: overwrites one cell. */
    method Set(p: Point, t: T)
      requires 0 <= p.line && 0 <= p.column && p.line * width + p.column < |content|
      modifies this
      ensures width == old(width) && height == old(height)
      ensures content == old(content)[p.line * width + p.column := t]
    {
      content := content[p.line * width + p.column := t];
    }

    /** `row`: the cells of one line. */
    function Row(r: nat): (cells: seq<T>)
      reads this
      requires (r + 1) * width <= |content|
      ensures |cells| == width
      ensures forall c :: 0 <= c < width ==> cells[c] == Get(Point(r, c))
    {
      content[r * width..(r + 1) * width]
    }

    /** `iter_item_and_position`: every cell with the position its offset
        stands for. */
    function ItemsAndPositions(): (items: seq<(Point, T)>)
      reads this
      requires width > 0 || content == []
      ensures |items| == |content|
      ensures forall i :: 0 <= i < |items| ==> items[i] == (PositionOf(i, width), content[i])
    {
      var cells, w := content, width;
      if cells == [] then []
      else seq(|cells|, i requires 0 <= i < |cells| => (PositionOf(i, w), cells[i]))
    }

    /** Inside the grid, each item is the cell `get_item` finds at its
        position, and the positions come in the order of `iter_positions`. */
    lemma ItemsAreCells(i: nat)
      requires Valid() && width > 0 && i < width * height
      ensures i < |ItemsAndPositions()|
      ensures ItemsAndPositions()[i].0 == Positions(width, height)[i]
      ensures GetItem(ItemsAndPositions()[i].0) == Some(ItemsAndPositions()[i].1)
    {
      PositionAt(width, height, i);
      var p := PositionOf(i, width);
      DivBetween(i, width, 0, height);
      OffsetOfPosition(i, width);
      assert ItemsAndPositions()[i] == (p, content[i]);
      assert IsInBounds(p);
      assert GetItem(p) == Some(content[i]);
    }

    /** `find_position_of`: the position of the first matching cell. */
    function FindPositionOf(item: T): (r: Option<Point>)
      reads this
      requires width > 0 || item !in content
      ensures r.None? <==> item !in content
      ensures r.Some? ==> exists i :: 0 <= i < |content| && content[i] == item && item !in content[..i]
                                      && r.value == PositionOf(i, width)
    {
      match Index(content, item)
      case None => None
      case Some(i) => Some(PositionOf(i, width))
    }

    /** `resize`: the new grid shows the old cells that fall inside it and
        `default` everywhere else. */
    method Resize(w: nat, h: nat, default: T)
      requires Valid()
      modifies this
      ensures Valid() && width == w && height == h
      ensures content == Window(old(content), old(width), old(height), ORIGIN, w, h, default)
    {
      var cells := CopyWindow(ORIGIN, w, h, default);
      content := cells[..];
      width := w;
      height := h;
    }

    /** `resize_to_max_point`: the grid just large enough to hold `point`. */
    method ResizeToMaxPoint(point: Point, default: T)
      requires Valid() && point.line >= -1 && point.column >= -1
      modifies this
      ensures Valid() && width == point.column + 1 && height == point.line + 1
      ensures content == Window(old(content), old(width), old(height), ORIGIN, point.column + 1, point.line + 1, default)
    {
      Resize(point.column + 1, point.line + 1, default);
    }

    /** `clamp`: keeps the window from `min` to `max`, both included; cells
        of the window outside the old grid hold `default`. */
    method Clamp(min: Point, max: Point, default: T)
      requires Valid() && max.line >= min.line - 1 && max.column >= min.column - 1
      modifies this
      ensures Valid() && width == max.column - min.column + 1 && height == max.line - min.line + 1
      ensures content == Window(old(content), old(width), old(height), min, width, height, default)
    {
      var w := max.column - min.column + 1;
      var h := max.line - min.line + 1;
      var cells := CopyWindow(min, w, h, default);
      content := cells[..];
      width := w;
      height := h;
    }

    /** The loops shared by `resize` and `clamp`: a fresh `w` by `h` vector
        of `default`, then line by line and column by column the old cell
        under each slot when it lies inside the old grid. */
    method CopyWindow(min: Point, w: nat, h: nat, default: T) returns (cells: array<T>)
      requires Valid()
      ensures fresh(cells) && cells[..] == Window(content, width, height, min, w, h, default)
    {
      cells := new T[w * h](_ => default);
      var line, done := 0, 0;
      while line < h
        invariant 0 <= line <= h && done == line * w
        invariant Filled(cells, min, w, done, default)
      {
        FillRow(cells, min, w, h, line, done, default);
        line, done := line + 1, done + w;
      }
      FilledAll(cells, min, w, h, default);
    }

    /** The first `done` cells of the new window are in place and the rest
        still hold `default`. */
    ghost predicate Filled(cells: array<T>, min: Point, w: nat, done: nat, default: T)
      reads this, cells
    {
      Valid() && w > 0 ==>
        done <= cells.Length
        && (forall i :: 0 <= i < done ==> cells[i] == Pick(content, width, height, min, w, i, default))
        && (forall i :: done <= i < cells.Length ==> cells[i] == default)
    }

    lemma FilledAll(cells: array<T>, min: Point, w: nat, h: nat, default: T)
      requires Valid() && cells.Length == w * h && Filled(cells, min, w, h * w, default)
      ensures cells[..] == Window(content, width, height, min, w, h, default)
    {
    }

    /** Copies line `r` of the window, which starts at offset `start`. */
    method FillRow(cells: array<T>, min: Point, w: nat, h: nat, r: nat, start: nat, default: T)
      requires Valid() && cells.Length == w * h && r < h && start == r * w
      requires Filled(cells, min, w, start, default)
      modifies cells
      ensures Filled(cells, min, w, start + w, default)
    {
      var column := 0;
      MulLe(r + 1, h, w);
      while column < w
        invariant 0 <= column <= w
        invariant Filled(cells, min, w, start + column, default)
      {
        var p := Point(min.line + r, min.column + column);
        var i := start + column;
        DivModUnique(i, w, r, column);
        if InBoundsOf(width, height, p) {
          CellOffset(width, height, p);
          cells[i] := Get(p);
        } else {
          cells[i] := default;
        }
        column := column + 1;
      }
    }

    /** `map`: a new grid of the same size whose every cell is `f` of the
        position and the old cell. */
    method Map<N(==)>(f: (Point, T) -> N, zero: N) returns (g: Grid<N>)
      requires Valid()
      ensures fresh(g) && g.Valid() && g.width == width && g.height == height
      ensures |g.content| == width * height
      ensures forall p :: IsInBounds(p) ==> g.GetItem(p) == Some(f(p, GetItem(p).value))
    {
      g := new Grid(width, height, zero);
      var ps := Positions(width, height);
      var k := 0;
      while k < |ps|
        invariant 0 <= k <= |ps|
        invariant g.width == width && g.height == height && |g.content| == width * height
        invariant MappedUpTo(g.content, f, k)
      {
        var p := ps[k];
        PositionAt(width, height, k);
        OffsetOfPosition(k, width);
        MapStep(g.content, f, k, p);
        g.Set(p, f(p, Get(p)));
        k := k + 1;
      }
      forall p | IsInBounds(p) ensures g.GetItem(p) == Some(f(p, GetItem(p).value)) {
        MappedCell(g, f, p);
      }
    }

    /** The first `k` cells of `cells` are `f` of their position and the
        old cell. */
    ghost predicate MappedUpTo<N>(cells: seq<N>, f: (Point, T) -> N, k: nat)
      reads this
    {
      width > 0 ==> forall i :: 0 <= i < k ==> i < |cells| && i < |content| && cells[i] == f(PositionOf(i, width), content[i])
    }

    lemma MapStep<N>(cells: seq<N>, f: (Point, T) -> N, k: nat, p: Point)
      requires Valid() && width > 0 && k < width * height && |cells| == width * height
      requires MappedUpTo(cells, f, k) && p == PositionOf(k, width)
      requires p.line * width + p.column == k
      ensures 0 <= p.line && 0 <= p.column
      ensures MappedUpTo(cells[k := f(p, Get(p))], f, k + 1)
    {
    }

    lemma MappedCell<N>(g: Grid<N>, f: (Point, T) -> N, p: Point)
      requires Valid() && g.Valid() && g.width == width && g.height == height
      requires |g.content| == width * height && MappedUpTo(g.content, f, width * height)
      requires IsInBounds(p)
      ensures g.GetItem(p) == Some(f(p, GetItem(p).value))
    {
      CellOffset(width, height, p);
    }
  }

  /** Each character mapped to a cell. */
  function MapCells<T>(chars: string, mapChar: char -> T): (cells: seq<T>)
    ensures |cells| == |chars|
    ensures forall i :: 0 <= i < |chars| ==> cells[i] == mapChar(chars[i])
  {
    seq(|chars|, i requires 0 <= i < |chars| => mapChar(chars[i]))
  }

  lemma MapCellsAppend<T>(chars: string, c: char, mapChar: char -> T)
    ensures MapCells(chars + [c], mapChar) == MapCells(chars, mapChar) + [mapChar(c)]
  {
  }

  /** Index of the last character `accept` takes. */
  function LastIndex(s: string, accept: char -> bool): (r: Option<nat>)
    ensures r.None? <==> forall i :: 0 <= i < |s| ==> !accept(s[i])
    ensures r.Some? ==> r.value < |s| && accept(s[r.value])
                        && forall j :: r.value < j < |s| ==> !accept(s[j])
  {
    if s == [] then None
    else if accept(s[|s| - 1]) then Some(|s| - 1)
    else LastIndex(s[..|s| - 1], accept)
  }

  lemma LastIndexSnoc(s: string, c: char, accept: char -> bool)
    ensures LastIndex(s + [c], accept) == if accept(c) then Some(|s|) else LastIndex(s, accept)
  {
    assert (s + [c])[..|s|] == s;
  }

  /** One more character read: one more cell, and the last accepted index
      moves to it when it is accepted. */
  lemma CaptureStep<T>(chars: string, i: nat, mapChar: char -> T, isStart: char -> bool)
    requires i < |chars|
    ensures MapCells(chars[..i + 1], mapChar) == MapCells(chars[..i], mapChar) + [mapChar(chars[i])]
    ensures LastIndex(chars[..i + 1], isStart) == if isStart(chars[i]) then Some(i) else LastIndex(chars[..i], isStart)
  {
    assert chars[..i + 1] == chars[..i] + [chars[i]];
    LastIndexSnoc(chars[..i], chars[i], isStart);
    MapCellsAppend(chars[..i], chars[i], mapChar);
  }

  /** Index of the first occurrence, as `Iterator::position`. */
  function Index<T(==)>(s: seq<T>, x: T): (r: Option<nat>)
    ensures r.None? <==> x !in s
    ensures r.Some? ==> r.value < |s| && s[r.value] == x && x !in s[..r.value]
  {
    if s == [] then None
    else if s[0] == x then Some(0)
    else match Index(s[1..], x)
      case None => None
      case Some(i) => assert s[1..][..i] == s[1..i + 1]; Some(i + 1)
  }

  /** `is_true` on a grid of booleans: inside and set. */
  function IsTrue(g: Grid<bool>, p: Point): (r: bool)
    reads g
    requires g.Valid()
    ensures r <==> g.GetItem(p) == Some(true)
  {
    g.IsInBounds(p) && (CellOffset(g.width, g.height, p); g.Get(p))
  }

  /** `is_false` on a grid of booleans: outside, or inside and clear. */
  function IsFalse(g: Grid<bool>, p: Point): (r: bool)
    reads g
    requires g.Valid()
    ensures r <==> !IsTrue(g, p)
    ensures r <==> g.GetItem(p) != Some(true)
  {
    !g.IsInBounds(p) || (CellOffset(g.width, g.height, p); !g.Get(p))
  }

  /** The unit tests of the grid, which read `"123\n456\n789"` with
      `new_from_str`; here the same three by three layout is built with
      `from_vec` from the values one to nine. */
  method BoundsExample()
  {
    var g := new Grid.FromVec([1, 2, 3, 4, 5, 6, 7, 8, 9], 3);
    DivModUnique(9, 3, 3, 0);
    assert g.height == 3;
    assert g.IsInBounds(Point(1, 2)) && !g.IsInBounds(Point(-1, 0)) && !g.IsInBounds(Point(0, 3));
    assert g.GetItem(Point(0, 2)) == Some(3) && g.GetItem(Point(3, 0)) == None;
  }

  method IndexExample()
  {
    var g := new Grid.FromVec([1, 2, 3, 4, 5, 6, 7, 8, 9], 3);
    assert g.Get(Point(1, 1)) == 5 && g.Get(Point(2, 0)) == 7;
    g.Set(Point(1, 1), 0);
    assert g.Get(Point(1, 1)) == 0 && g.Get(Point(1, 2)) == 6;
  }

  method ResizeExample()
  {
    var g := new Grid.FromVec([1, 2, 3, 4, 5, 6, 7, 8, 9], 3);
    ghost var before := g.content;
    g.Resize(4, 4, 0);
    WindowCell(before, 3, 3, ORIGIN, 4, 4, 0, Point(1, 1));
    WindowCell(before, 3, 3, ORIGIN, 4, 4, 0, Point(1, 3));
    WindowCell(before, 3, 3, ORIGIN, 4, 4, 0, Point(3, 0));
    assert g.content[5] == 5 && g.content[7] == 0 && g.content[12] == 0;
  }

  method ClampExample()
  {
    var g := new Grid.FromVec([1, 2, 3, 4, 5, 6, 7, 8, 9], 3);
    ghost var before := g.content;
    g.Clamp(Point(1, 1), Point(2, 2), 0);
    WindowCell(before, 3, 3, Point(1, 1), 2, 2, 0, Point(0, 0));
    WindowCell(before, 3, 3, Point(1, 1), 2, 2, 0, Point(1, 1));
    assert g.width == 2 && g.content[0] == 5 && g.content[3] == 9;
  }
}
