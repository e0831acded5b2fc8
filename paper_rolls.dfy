/** Rolls of paper on a grid (src/bin/04.rs): a roll can be taken away when
    fewer than four of the eight cells around it hold a roll; part one counts
    those rolls, part two keeps taking rolls away until none can be. */
module PaperRolls {
  import opened Text
  import opened Directions
  import opened Points
  import opened Grids
  import opened Arith

  /** `b'@'` and `b'.'`. */
  const ROLL: u8 := 0x40
  const EMPTY: u8 := 0x2e

  /** `c as u8`: the low eight bits of the character. */
  function AsByte(c: char): (b: u8)
    ensures c as int < 256 ==> b as int == c as int
  {
    (c as int % 256) as u8
  }

  // ---- the cells around a point ----

  /** `get_item` on the cells of a `width` by `height` grid; a cell inside
      the bounds but past the cells there are would make `get_item` panic,
      and reads as nothing here. */
  function CellAt(cells: seq<u8>, width: nat, height: nat, q: Point): (r: Option<u8>)
    ensures r.Some? ==> InBoundsOf(width, height, q)
  {
    if InBoundsOf(width, height, q) && q.line * width + q.column < |cells| then
      Some(cells[q.line * width + q.column])
    else None
  }

  /** On a grid whose cells fill its bounds, that is `get_item`. */
  lemma CellAtIsGetItem(g: Grid<u8>, q: Point)
    requires g.Valid()
    ensures CellAt(g.content, g.width, g.height, q) == g.GetItem(q)
  {
    if g.IsInBounds(q) {
      CellOffset(g.width, g.height, q);
    }
  }

  /** Rolls among the first `n` directions of `ALL_AROUND`, seen from `p`;
      a neighbour outside the grid holds nothing. */
  function CountAround(cells: seq<u8>, width: nat, height: nat, p: Point, n: nat): (k: nat)
    requires n <= |ALL_AROUND|
    ensures k <= n
  {
    if n == 0 then 0
    else CountAround(cells, width, height, p, n - 1)
         + (if CellAt(cells, width, height, Apply(p, ALL_AROUND[n - 1])) == Some(ROLL) then 1 else 0)
  }

  function RollsAround(cells: seq<u8>, width: nat, height: nat, p: Point): nat
  {
    CountAround(cells, width, height, p, |ALL_AROUND|)
  }

  lemma {:induction false} CountAroundGrows(cells: seq<u8>, width: nat, height: nat, p: Point, m: nat, n: nat)
    requires m <= n <= |ALL_AROUND|
    ensures CountAround(cells, width, height, p, m) <= CountAround(cells, width, height, p, n)
  {
    if m < n {
      CountAroundGrows(cells, width, height, p, m, n - 1);
    }
  }

  /** `is_removable`: counts the rolls around `p` and gives up as soon as
      there are four. */
  method IsRemovable(g: Grid<u8>, p: Point) returns (r: bool)
    requires g.Valid()
    ensures r <==> RollsAround(g.content, g.width, g.height, p) < 4
  {
    var count := 0;
    for i := 0 to |ALL_AROUND|
      invariant count == CountAround(g.content, g.width, g.height, p, i) && count < 4
    {
      var d := ALL_AROUND[i];
      CellAtIsGetItem(g, Apply(p, d));
      if Some(ROLL) == g.GetItem(Apply(p, d)) {
        count := count + 1;
      }
      if count >= 4 {
        CountAroundGrows(g.content, g.width, g.height, p, i + 1, |ALL_AROUND|);
        return false;
      }
    }
    return true;
  }

  /** A direction that leads out of the grid adds nothing. */
  lemma CountAroundOutside(cells: seq<u8>, width: nat, height: nat, p: Point, n: nat)
    requires 0 < n <= |ALL_AROUND|
    requires !InBoundsOf(width, height, Apply(p, ALL_AROUND[n - 1]))
    ensures CountAround(cells, width, height, p, n) == CountAround(cells, width, height, p, n - 1)
  {
  }

  /** Each further direction adds at most one. */
  lemma {:induction false} CountAroundStep(cells: seq<u8>, width: nat, height: nat, p: Point, m: nat, n: nat)
    requires m <= n <= |ALL_AROUND|
    ensures CountAround(cells, width, height, p, n) <= CountAround(cells, width, height, p, m) + (n - m)
  {
    if m < n {
      CountAroundStep(cells, width, height, p, m, n - 1);
    }
  }

  // ---- part one ----

  /** Rolls among the first `n` cells that can be taken away. */
  function Removable(cells: seq<u8>, width: nat, height: nat, n: nat): (k: nat)
    requires width > 0 && n <= |cells|
    ensures k <= n
  {
    if n == 0 then 0
    else Removable(cells, width, height, n - 1)
         + (if cells[n - 1] == ROLL && RollsAround(cells, width, height, PositionOf(n - 1, width)) < 4 then 1 else 0)
  }

  /** The first line gives the width; the input needs one, non-empty. */
  predicate WellFormed(input: string)
  {
    Lines(input) != [] && |Lines(input)[0]| > 0
  }

  function Cells(input: string): seq<u8>
  {
    MapCells(Unbroken(input), AsByte)
  }

  /** The rolls of the grid read from `input` that can be taken away. */
  function RemovableIn(input: string): nat
    requires WellFormed(input)
  {
    var cells, width := Cells(input), |Lines(input)[0]|;
    var height := RowsOf(|cells|, width);
    Removable(cells, width, height, |cells|)
  }

  /** The place `par_iter_item_and_position` gives the cell at `offset`:
      its line is `offset / width` but its column is `offset % height`. */
  function ParPositionOf(offset: nat, width: nat, height: nat): (p: Point)
    requires width > 0 && height > 0
    ensures p.line == PositionOf(offset, width).line
    ensures width == height ==> p == PositionOf(offset, width)
  {
    Point(offset / width, offset % height)
  }

  /** The count of `part_one` as written, each roll judged at the place
      `par_iter_item_and_position` gives it; on a square grid that place is
      the roll's own and the count is the intended one. */
  function RemovableAsWritten(cells: seq<u8>, width: nat, height: nat, n: nat): (k: nat)
    requires width > 0 && height > 0 && n <= |cells|
    ensures k <= n
    ensures width == height ==> k == Removable(cells, width, height, n)
  {
    if n == 0 then 0
    else RemovableAsWritten(cells, width, height, n - 1)
         + (if cells[n - 1] == ROLL && RollsAround(cells, width, height, ParPositionOf(n - 1, width, height)) < 4 then 1 else 0)
  }

  /** `part_one`: the rolls that can be taken away. */
  method PartOne(input: string) returns (res: nat)
    requires WellFormed(input)
    ensures res == RemovableIn(input)
  {
    var grid := new Grid.FromStr(input, AsByte);
    res := CountRemovable(grid);
  }

  /** The count of `part_one`, one cell after the other in the order of
      `iter_item_and_position`. */
  method CountRemovable(grid: Grid<u8>) returns (res: nat)
    requires grid.Valid() && grid.width > 0
    ensures res == Removable(grid.content, grid.width, grid.height, |grid.content|)
  {
    var items := grid.ItemsAndPositions();
    res := 0;
    for i := 0 to |items|
      invariant res == Removable(grid.content, grid.width, grid.height, i)
    {
      var (p, c) := items[i];
      if c == ROLL {
        var removable := IsRemovable(grid, p);
        if removable {
          res := res + 1;
        }
      }
    }
  }

  // ---- a grid where the two readings part ways ----

  /** A `width` by `height` grid with a roll in every cell. */
  predicate AllRolls(cells: seq<u8>, width: nat, height: nat)
  {
    |cells| == width * height && forall i :: 0 <= i < |cells| ==> cells[i] == ROLL
  }

  lemma AllRollsCell(cells: seq<u8>, width: nat, height: nat, q: Point)
    requires AllRolls(cells, width, height)
    ensures CellAt(cells, width, height, q) == Some(ROLL) <==> InBoundsOf(width, height, q)
  {
    if InBoundsOf(width, height, q) {
      CellOffset(width, height, q);
    }
  }

  /** Neighbours inside the bounds among the first `n` directions. */
  function InsideCount(width: nat, height: nat, p: Point, n: nat): nat
    requires n <= |ALL_AROUND|
  {
    if n == 0 then 0
    else InsideCount(width, height, p, n - 1) + InsideBit(width, height, Apply(p, ALL_AROUND[n - 1]))
  }

  function InsideBit(width: nat, height: nat, q: Point): nat
  {
    if InBoundsOf(width, height, q) then 1 else 0
  }

  /** On a grid full of rolls, the rolls around a point are its neighbours
      inside the bounds. */
  lemma {:induction false} AllRollsAround(cells: seq<u8>, width: nat, height: nat, p: Point, n: nat)
    requires AllRolls(cells, width, height) && n <= |ALL_AROUND|
    ensures CountAround(cells, width, height, p, n) == InsideCount(width, height, p, n)
  {
    if n > 0 {
      AllRollsAround(cells, width, height, p, n - 1);
      AllRollsCell(cells, width, height, Apply(p, ALL_AROUND[n - 1]));
    }
  }

  /** The eight neighbours written out, clockwise from straight up. */
  lemma InsideCountEight(width: nat, height: nat, p: Point)
    ensures InsideCount(width, height, p, 8)
      == InsideBit(width, height, Point(p.line - 1, p.column)) + InsideBit(width, height, Point(p.line - 1, p.column + 1))
       + InsideBit(width, height, Point(p.line, p.column + 1)) + InsideBit(width, height, Point(p.line + 1, p.column + 1))
       + InsideBit(width, height, Point(p.line + 1, p.column)) + InsideBit(width, height, Point(p.line + 1, p.column - 1))
       + InsideBit(width, height, Point(p.line, p.column - 1)) + InsideBit(width, height, Point(p.line - 1, p.column - 1))
  {
    AllAroundValues();
    var up, upRight, right := Point(p.line - 1, p.column), Point(p.line - 1, p.column + 1), Point(p.line, p.column + 1);
    var downRight, down, downLeft := Point(p.line + 1, p.column + 1), Point(p.line + 1, p.column), Point(p.line + 1, p.column - 1);
    var left := Point(p.line, p.column - 1);
    assert InsideCount(width, height, p, 1) == InsideBit(width, height, up);
    assert InsideCount(width, height, p, 2) == InsideCount(width, height, p, 1) + InsideBit(width, height, upRight);
    assert InsideCount(width, height, p, 3) == InsideCount(width, height, p, 2) + InsideBit(width, height, right);
    assert InsideCount(width, height, p, 4) == InsideCount(width, height, p, 3) + InsideBit(width, height, downRight);
    assert InsideCount(width, height, p, 5) == InsideCount(width, height, p, 4) + InsideBit(width, height, down);
    assert InsideCount(width, height, p, 6) == InsideCount(width, height, p, 5) + InsideBit(width, height, downLeft);
    assert InsideCount(width, height, p, 7) == InsideCount(width, height, p, 6) + InsideBit(width, height, left);
  }

  /** Two full rows of three: the middle column sees five rolls, the
      others three. */
  lemma TwoRowsAround(cells: seq<u8>, p: Point)
    requires AllRolls(cells, 3, 2) && InBoundsOf(3, 2, p)
    ensures RollsAround(cells, 3, 2, p) == if p.column == 1 then 5 else 3
  {
    AllRollsAround(cells, 3, 2, p, 8);
    InsideCountEight(3, 2, p);
  }

  /** Offset `i` is judged removable at its own place exactly when it is
      not in the middle column, and at the place `par_iter_item_and_position`
      gives it exactly when `i` is even. */
  lemma TwoRowsVerdicts(cells: seq<u8>, i: nat)
    requires AllRolls(cells, 3, 2) && i < 6
    ensures RollsAround(cells, 3, 2, PositionOf(i, 3)) < 4 <==> i % 3 != 1
    ensures RollsAround(cells, 3, 2, ParPositionOf(i, 3, 2)) < 4 <==> i % 2 == 0
  {
    TwoRowsAround(cells, PositionOf(i, 3));
    TwoRowsAround(cells, ParPositionOf(i, 3, 2));
  }

  /** The offsets below `n` whose remainder by `m` is not `r`. */
  function OffResidue(n: nat, m: nat, r: nat): (k: nat)
    requires m > 0
    ensures k <= n
  {
    if n == 0 then 0 else OffResidue(n - 1, m, r) + (if (n - 1) % m != r then 1 else 0)
  }

  lemma TwoRowsIntendedStep(cells: seq<u8>, n: nat)
    requires AllRolls(cells, 3, 2) && 0 < n <= 6
    requires Removable(cells, 3, 2, n - 1) == OffResidue(n - 1, 3, 1)
    ensures Removable(cells, 3, 2, n) == OffResidue(n, 3, 1)
  {
    TwoRowsVerdicts(cells, n - 1);
  }

  lemma TwoRowsAsWrittenStep(cells: seq<u8>, n: nat)
    requires AllRolls(cells, 3, 2) && 0 < n <= 6
    requires RemovableAsWritten(cells, 3, 2, n - 1) == OffResidue(n - 1, 2, 1)
    ensures RemovableAsWritten(cells, 3, 2, n) == OffResidue(n, 2, 1)
  {
    TwoRowsVerdicts(cells, n - 1);
  }

  lemma {:induction false} TwoRowsIntended(cells: seq<u8>, n: nat)
    requires AllRolls(cells, 3, 2) && n <= 6
    ensures Removable(cells, 3, 2, n) == OffResidue(n, 3, 1)
  {
    if n > 0 {
      TwoRowsIntended(cells, n - 1);
      TwoRowsIntendedStep(cells, n);
    }
  }

  lemma {:induction false} TwoRowsAsWritten(cells: seq<u8>, n: nat)
    requires AllRolls(cells, 3, 2) && n <= 6
    ensures RemovableAsWritten(cells, 3, 2, n) == OffResidue(n, 2, 1)
  {
    if n > 0 {
      TwoRowsAsWritten(cells, n - 1);
      TwoRowsAsWrittenStep(cells, n);
    }
  }

  /** Two full rows of three rolls (`@@@` twice): the four corner rolls can
      be taken away, but `part_one` as written judges offset 2 at column 0,
      offset 3 at column 1 and offset 4 at column 0, and counts three. */
  lemma NonSquareDiffers(cells: seq<u8>)
    requires AllRolls(cells, 3, 2)
    ensures Removable(cells, 3, 2, |cells|) == 4
    ensures RemovableAsWritten(cells, 3, 2, |cells|) == 3
  {
    TwoRowsIntended(cells, |cells|);
    TwoRowsAsWritten(cells, |cells|);
    assert OffResidue(6, 3, 1) == 4;
    assert OffResidue(6, 2, 1) == 3;
  }

  /** Such a grid exists: six rolls, read as two lines of three. */
  lemma TwoRowsExample(cells: seq<u8>)
    requires cells == [ROLL, ROLL, ROLL, ROLL, ROLL, ROLL]
    ensures Removable(cells, 3, 2, |cells|) == 4
    ensures RemovableAsWritten(cells, 3, 2, |cells|) == 3
  {
    assert AllRolls(cells, 3, 2);
    NonSquareDiffers(cells);
  }

  // ---- part two ----

  /** Offsets of the rolls among the first `n` cells, in order. */
  function RollOffsets(cells: seq<u8>, n: nat): (offs: seq<nat>)
    requires n <= |cells|
    ensures |offs| <= n
    ensures forall k :: 0 <= k < |offs| ==> offs[k] < n && cells[offs[k]] == ROLL
    ensures forall i :: 0 <= i < n && cells[i] == ROLL ==> i in offs
  {
    if n == 0 then []
    else RollOffsets(cells, n - 1) + (if cells[n - 1] == ROLL then [n - 1] else [])
  }

  lemma {:induction false} RollOffsetsIncrease(cells: seq<u8>, n: nat, j: nat, k: nat)
    requires n <= |cells| && j < k < |RollOffsets(cells, n)|
    ensures RollOffsets(cells, n)[j] < RollOffsets(cells, n)[k]
  {
    var prev := RollOffsets(cells, n - 1);
    if k < |prev| {
      RollOffsetsIncrease(cells, n - 1, j, k);
    }
  }

  /** Cells that held a roll before and are empty after. */
  function Removed(before: seq<u8>, after: seq<u8>): (k: nat)
    requires |before| == |after|
  {
    if before == [] then 0
    else Removed(before[..|before| - 1], after[..|after| - 1])
         + (if before[|before| - 1] == ROLL && after[|after| - 1] == EMPTY then 1 else 0)
  }

  /** Every cell is as it was, or a roll that was taken away. */
  predicate OnlyTaken(before: seq<u8>, after: seq<u8>)
  {
    |before| == |after|
    && forall i :: 0 <= i < |after| ==> after[i] == before[i] || (before[i] == ROLL && after[i] == EMPTY)
  }

  /** No more cells can have been emptied than there were rolls. */
  lemma {:induction false} RemovedBound(before: seq<u8>, after: seq<u8>)
    requires |before| == |after|
    ensures Removed(before, after) <= |RollOffsets(before, |before|)|
  {
    if before != [] {
      var n := |before|;
      RemovedBound(before[..n - 1], after[..n - 1]);
      RollOffsetsAgree(before[..n - 1], before, n - 1);
    }
  }

  /** The offsets among the first `n` cells depend on those cells only. */
  lemma {:induction false} RollOffsetsAgree(a: seq<u8>, b: seq<u8>, n: nat)
    requires n <= |a| && n <= |b| && a[..n] == b[..n]
    ensures RollOffsets(a, n) == RollOffsets(b, n)
  {
    if n > 0 {
      assert a[n - 1] == a[..n][n - 1] && b[n - 1] == b[..n][n - 1];
      assert a[..n - 1] == a[..n][..n - 1] && b[..n - 1] == b[..n][..n - 1];
      RollOffsetsAgree(a, b, n - 1);
    }
  }

  /** Taking one more roll away adds exactly one to the count. */
  lemma {:induction false} RemovedStep(before: seq<u8>, after: seq<u8>, o: nat)
    requires |before| == |after| && o < |after|
    requires before[o] == ROLL && after[o] != EMPTY
    ensures Removed(before, after[o := EMPTY]) == Removed(before, after) + 1
  {
    var n := |before|;
    if o < n - 1 {
      assert after[o := EMPTY][..n - 1] == after[..n - 1][o := EMPTY];
      RemovedStep(before[..n - 1], after[..n - 1], o);
    } else {
      assert after[o := EMPTY][..n - 1] == after[..n - 1];
    }
  }

  lemma RollOffsetsDistinct(cells: seq<u8>, n: nat, k: nat)
    requires n <= |cells| && k < |RollOffsets(cells, n)|
    ensures forall j :: 0 <= j < |RollOffsets(cells, n)| && j != k ==> RollOffsets(cells, n)[j] != RollOffsets(cells, n)[k]
  {
    forall j | 0 <= j < |RollOffsets(cells, n)| && j != k
      ensures RollOffsets(cells, n)[j] != RollOffsets(cells, n)[k]
    {
      if j < k {
        RollOffsetsIncrease(cells, n, j, k);
      } else {
        RollOffsetsIncrease(cells, n, k, j);
      }
    }
  }

  /** `all_rolls` as collected: `(false, position)` for every roll, in the
      order of `iter_item_and_position`. */
  function Unvisited(items: seq<(Point, u8)>): (rolls: seq<(bool, Point)>)
    ensures |rolls| <= |items|
  {
    if items == [] then []
    else Unvisited(items[..|items| - 1])
         + (if items[|items| - 1].1 == ROLL then [(false, items[|items| - 1].0)] else [])
  }

  /** Entry `k` of `all_rolls` stands for the roll at offset `offs[k]`: it
      has that roll's position, and is marked removed exactly when that
      cell is empty. */
  ghost predicate Tracks(rolls: seq<(bool, Point)>, offs: seq<nat>, cells: seq<u8>, width: nat)
    requires width > 0
  {
    |rolls| == |offs|
    && forall k :: 0 <= k < |offs| ==>
         offs[k] < |cells| && rolls[k].1 == PositionOf(offs[k], width) && (rolls[k].0 <==> cells[offs[k]] == EMPTY)
  }

  /** The collected rolls are the rolls of the grid, none removed yet. */
  lemma {:induction false} UnvisitedTracks(items: seq<(Point, u8)>, cells: seq<u8>, width: nat, n: nat)
    requires width > 0 && n <= |items| == |cells|
    requires forall i :: 0 <= i < |items| ==> items[i] == (PositionOf(i, width), cells[i])
    ensures Tracks(Unvisited(items[..n]), RollOffsets(cells, n), cells, width)
  {
    if n > 0 {
      UnvisitedTracks(items, cells, width, n - 1);
      assert items[..n][..n - 1] == items[..n - 1];
    }
  }

  /** Every remaining roll has at least four rolls around it. */
  ghost predicate Stuck(cells: seq<u8>, width: nat, height: nat, rolls: seq<(bool, Point)>, n: nat)
    requires n <= |rolls|
  {
    forall j :: 0 <= j < n && !rolls[j].0 ==> RollsAround(cells, width, height, rolls[j].1) >= 4
  }

  /** The state `part_two` keeps between cells: only rolls were taken,
      `count` of them, and `all_rolls` records which. */
  ghost predicate Progress(initial: seq<u8>, cells: seq<u8>, width: nat, rolls: seq<(bool, Point)>, count: nat)
    requires width > 0
  {
    OnlyTaken(initial, cells)
    && count == Removed(initial, cells) && count <= |RollOffsets(initial, |initial|)|
    && Tracks(rolls, RollOffsets(initial, |initial|), cells, width)
  }

  lemma {:induction false} RemovedNone(cells: seq<u8>)
    ensures Removed(cells, cells) == 0
  {
    if cells != [] {
      RemovedNone(cells[..|cells| - 1]);
    }
  }

  // ---- taking rolls away one at a time ----

  /** The cells after the rolls at the offsets `order` were taken away, one
      after the other. */
  function Peeled(cells: seq<u8>, order: seq<nat>): (after: seq<u8>)
    ensures |after| == |cells|
  {
    if order == [] then cells
    else
      var before := Peeled(cells, order[..|order| - 1]);
      var o := order[|order| - 1];
      if o < |before| then before[o := EMPTY] else before
  }

  /** Each offset of `order`, at its turn, holds a roll with fewer than four
      rolls around it: the rolls can be taken away in that order. */
  ghost predicate Peels(cells: seq<u8>, width: nat, height: nat, order: seq<nat>)
    requires width > 0
  {
    order == []
    || (Peels(cells, width, height, order[..|order| - 1])
        && var before, o := Peeled(cells, order[..|order| - 1]), order[|order| - 1];
        o < |before| && before[o] == ROLL && RollsAround(before, width, height, PositionOf(o, width)) < 4)
  }

  /** Every roll left has at least four rolls around it: none can be taken. */
  ghost predicate AllStuck(cells: seq<u8>, width: nat, height: nat)
    requires width > 0
  {
    forall i :: 0 <= i < |cells| && cells[i] == ROLL ==> RollsAround(cells, width, height, PositionOf(i, width)) >= 4
  }

  /** Taking one more roll that can be taken extends the order. */
  lemma PeelStep(cells: seq<u8>, width: nat, height: nat, order: seq<nat>, o: nat)
    requires width > 0 && Peels(cells, width, height, order)
    requires o < |cells| && Peeled(cells, order)[o] == ROLL
    requires RollsAround(Peeled(cells, order), width, height, PositionOf(o, width)) < 4
    ensures Peels(cells, width, height, order + [o])
    ensures Peeled(cells, order + [o]) == Peeled(cells, order)[o := EMPTY]
  {
    assert (order + [o])[..|order|] == order;
  }

  /** Taking rolls away in a valid order only empties rolls, and empties one
      cell per step. */
  lemma {:induction false} PeelRemoves(cells: seq<u8>, width: nat, height: nat, order: seq<nat>)
    requires width > 0 && Peels(cells, width, height, order)
    ensures OnlyTaken(cells, Peeled(cells, order))
    ensures Removed(cells, Peeled(cells, order)) == |order|
  {
    if order == [] {
      RemovedNone(cells);
    } else {
      var prefix := order[..|order| - 1];
      PeelRemoves(cells, width, height, prefix);
      RemovedStep(cells, Peeled(cells, prefix), order[|order| - 1]);
    }
  }

  /** Every roll of `a` is a roll of `b`. */
  predicate RollsWithin(a: seq<u8>, b: seq<u8>)
  {
    |a| == |b| && forall i :: 0 <= i < |a| && a[i] == ROLL ==> b[i] == ROLL
  }

  /** More rolls around never means fewer counted. */
  lemma {:induction false} CountAroundMonotone(a: seq<u8>, b: seq<u8>, width: nat, height: nat, p: Point, n: nat)
    requires RollsWithin(a, b) && n <= |ALL_AROUND|
    ensures CountAround(a, width, height, p, n) <= CountAround(b, width, height, p, n)
  {
    if n > 0 {
      CountAroundMonotone(a, b, width, height, p, n - 1);
      RollWithin(a, b, width, height, Apply(p, ALL_AROUND[n - 1]));
    }
  }

  /** A roll seen in the smaller grid is a roll in the larger one. */
  lemma RollWithin(a: seq<u8>, b: seq<u8>, width: nat, height: nat, q: Point)
    requires RollsWithin(a, b)
    ensures CellAt(a, width, height, q) == Some(ROLL) ==> CellAt(b, width, height, q) == Some(ROLL)
  {
  }

  /** A grid in which no roll can be taken stays inside every grid that a
      valid order reaches from a grid containing it: its rolls are never
      the ones taken. */
  lemma {:induction false} StuckSurvives(cells: seq<u8>, width: nat, height: nat, order: seq<nat>, core: seq<u8>)
    requires width > 0 && Peels(cells, width, height, order)
    requires AllStuck(core, width, height) && RollsWithin(core, cells)
    ensures RollsWithin(core, Peeled(cells, order))
  {
    if order != [] {
      var prefix := order[..|order| - 1];
      var before, o := Peeled(cells, prefix), order[|order| - 1];
      StuckSurvives(cells, width, height, prefix, core);
      if core[o] == ROLL {
        CountAroundMonotone(core, before, width, height, PositionOf(o, width), |ALL_AROUND|);
        assert false;
      }
    }
  }

  /** Whatever order the rolls are taken in, once none can be taken the grid
      left behind is the same, and so is the number taken. */
  lemma PeelUnique(cells: seq<u8>, width: nat, height: nat, a: seq<nat>, b: seq<nat>)
    requires width > 0
    requires Peels(cells, width, height, a) && AllStuck(Peeled(cells, a), width, height)
    requires Peels(cells, width, height, b) && AllStuck(Peeled(cells, b), width, height)
    ensures Peeled(cells, a) == Peeled(cells, b) && |a| == |b|
  {
    var pa, pb := Peeled(cells, a), Peeled(cells, b);
    PeelRemoves(cells, width, height, a);
    PeelRemoves(cells, width, height, b);
    assert RollsWithin(pa, cells) && RollsWithin(pb, cells);
    StuckSurvives(cells, width, height, b, pa);
    StuckSurvives(cells, width, height, a, pb);
    assert pa == pb by {
      forall i | 0 <= i < |pa| ensures pa[i] == pb[i] {
        if cells[i] == ROLL {
          assert pa[i] == ROLL <==> pb[i] == ROLL;
        }
      }
    }
  }

  /** `part_two`: takes rolls away, pass after pass over `all_rolls`, until
      a whole pass takes none; the answer is how many were taken.  The rolls
      were taken one at a time, each with fewer than four rolls around it
      at its turn, until every roll left has at least four; by `PeelUnique`
      that fixes the answer whatever the order. */
  method PartTwo(input: string) returns (count: nat)
    requires WellFormed(input)
    ensures var cells, width := Cells(input), |Lines(input)[0]|;
      exists order :: Peels(cells, width, RowsOf(|cells|, width), order) && |order| == count
        && AllStuck(Peeled(cells, order), width, RowsOf(|cells|, width))
    ensures count <= |RollOffsets(Cells(input), |Cells(input)|)|
  {
    var grid := new Grid.FromStr(input, AsByte);
    ghost var order;
    count, order := RemoveRolls(grid);
  }

  /** The removal loop of `part_two` on the grid itself: the grid ends as
      the rolls listed in `order` left it, each taken when it could be, and
      no roll left can be taken. */
  method RemoveRolls(grid: Grid<u8>) returns (count: nat, ghost order: seq<nat>)
    requires grid.Valid() && grid.width > 0
    modifies grid
    ensures grid.Valid() && grid.width == old(grid.width) && grid.height == old(grid.height)
    ensures Peels(old(grid.content), grid.width, grid.height, order)
    ensures grid.content == Peeled(old(grid.content), order) && count == |order|
    ensures count <= |RollOffsets(old(grid.content), |old(grid.content)|)|
    ensures AllStuck(grid.content, grid.width, grid.height)
  {
    ghost var initial := grid.content;
    var items := grid.ItemsAndPositions();
    assert items[..|items|] == items;
    UnvisitedTracks(items, initial, grid.width, |items|);
    RemovedNone(initial);
    var allRolls := Unvisited(items);
    order := [];

    var removedOne := true;
    count := 0;
    while removedOne
      invariant grid.Valid() && grid.width == old(grid.width) && grid.height == old(grid.height)
      invariant Progress(initial, grid.content, grid.width, allRolls, count)
      invariant History(initial, grid.content, grid.width, grid.height, order, count)
      invariant !removedOne ==> Stuck(grid.content, grid.width, grid.height, allRolls, |allRolls|)
      decreases |RollOffsets(initial, |initial|)| - count, if removedOne then 1 else 0
    {
      allRolls, count, removedOne, order := Pass(grid, initial, allRolls, count, order);
    }
    StuckRolls(initial, grid.content, grid.width, grid.height, allRolls, count);
  }

  /** The grid is what taking the rolls of `order` left, and `count` of them
      were taken. */
  ghost predicate History(initial: seq<u8>, cells: seq<u8>, width: nat, height: nat, order: seq<nat>, count: nat)
    requires width > 0
  {
    Peels(initial, width, height, order) && cells == Peeled(initial, order) && count == |order|
  }

  /** One pass of `part_two` over `all_rolls`: every roll not yet removed
      that can be taken away at its turn is, and is added to `order`. */
  method Pass(grid: Grid<u8>, ghost initial: seq<u8>, rolls: seq<(bool, Point)>, count: nat, ghost order: seq<nat>)
    returns (rolls': seq<(bool, Point)>, count': nat, removedOne: bool, ghost order': seq<nat>)
    requires grid.Valid() && grid.width > 0
    requires Progress(initial, grid.content, grid.width, rolls, count)
    requires History(initial, grid.content, grid.width, grid.height, order, count)
    modifies grid
    ensures grid.Valid() && grid.width == old(grid.width) && grid.height == old(grid.height)
    ensures Progress(initial, grid.content, grid.width, rolls', count')
    ensures History(initial, grid.content, grid.width, grid.height, order', count')
    ensures removedOne ==> count' > count
    ensures !removedOne ==> count' == count && Stuck(grid.content, grid.width, grid.height, rolls', |rolls'|)
  {
    rolls', count', removedOne, order' := rolls, count, false, order;
    for k := 0 to |rolls|
      invariant grid.Valid() && grid.width == old(grid.width) && grid.height == old(grid.height)
      invariant Progress(initial, grid.content, grid.width, rolls', count') && |rolls'| == |rolls|
      invariant History(initial, grid.content, grid.width, grid.height, order', count')
      invariant removedOne ==> count' > count
      invariant !removedOne ==> count' == count && Stuck(grid.content, grid.width, grid.height, rolls', k)
    {
      var (removed, p) := rolls'[k];
      if !removed {
        var removable := IsRemovable(grid, p);
        if removable {
          ghost var o := TakeRoll(grid, initial, rolls', count', k, order');
          rolls' := rolls'[k := (true, p)];
          removedOne := true;
          count' := count' + 1;
          order' := order' + [o];
        }
      }
    }
  }

  /** After a pass that took nothing, every roll left is stuck. */
  lemma StuckRolls(initial: seq<u8>, cells: seq<u8>, width: nat, height: nat, rolls: seq<(bool, Point)>, count: nat)
    requires width > 0
    requires Progress(initial, cells, width, rolls, count)
    requires Stuck(cells, width, height, rolls, |rolls|)
    ensures forall i :: 0 <= i < |cells| && cells[i] == ROLL ==>
              RollsAround(cells, width, height, PositionOf(i, width)) >= 4
  {
    var offs := RollOffsets(initial, |initial|);
    forall i | 0 <= i < |cells| && cells[i] == ROLL
      ensures RollsAround(cells, width, height, PositionOf(i, width)) >= 4
    {
      var j :| 0 <= j < |offs| && offs[j] == i;
    }
  }

  /** `grid[p] = b'.'` for entry `k` of `all_rolls`, which is not yet
      removed and has fewer than four rolls around it; `o` is its offset. */
  method TakeRoll(grid: Grid<u8>, ghost initial: seq<u8>, rolls: seq<(bool, Point)>, count: nat, k: nat, ghost order: seq<nat>)
    returns (ghost o: nat)
    requires grid.Valid() && grid.width > 0 && k < |rolls| && !rolls[k].0
    requires Progress(initial, grid.content, grid.width, rolls, count)
    requires History(initial, grid.content, grid.width, grid.height, order, count)
    requires RollsAround(grid.content, grid.width, grid.height, rolls[k].1) < 4
    modifies grid
    ensures grid.Valid() && grid.width == old(grid.width) && grid.height == old(grid.height)
    ensures Progress(initial, grid.content, grid.width, rolls[k := (true, rolls[k].1)], count + 1)
    ensures History(initial, grid.content, grid.width, grid.height, order + [o], count + 1)
  {
    ghost var offs := RollOffsets(initial, |initial|);
    var p := rolls[k].1;
    ghost var cells := grid.content;
    o := offs[k];
    TakeStep(initial, cells, grid.width, rolls, count, k);
    assert cells[o] == ROLL;
    PeelStep(initial, grid.width, grid.height, order, o);
    PositionWithin(o, grid.width, |grid.content|);
    assert p == PositionOf(o, grid.width);
    grid.Set(p, EMPTY);
    assert grid.content == cells[o := EMPTY];
  }

  /** The cell at an offset below `n` sits at that offset. */
  lemma {:induction false} PositionWithin(o: nat, width: nat, n: nat)
    requires width > 0 && o < n
    ensures PositionOf(o, width).line * width + PositionOf(o, width).column == o
    ensures 0 <= PositionOf(o, width).line && 0 <= PositionOf(o, width).column
  {
    OffsetOfPosition(o, width);
  }

  /** Emptying the cell of entry `k` and marking the entry removed keeps the
      progress, one more roll taken. */
  lemma {:induction false} TakeStep(initial: seq<u8>, cells: seq<u8>, width: nat, rolls: seq<(bool, Point)>, count: nat, k: nat)
    requires width > 0 && k < |rolls| && !rolls[k].0
    requires Progress(initial, cells, width, rolls, count)
    ensures var offs := RollOffsets(initial, |initial|);
      offs[k] < |cells| && rolls[k].1 == PositionOf(offs[k], width)
      && Progress(initial, cells[offs[k] := EMPTY], width, rolls[k := (true, rolls[k].1)], count + 1)
  {
    var offs := RollOffsets(initial, |initial|);
    RemovedStep(initial, cells, offs[k]);
    TracksAfter(rolls, initial, cells, width, k);
    RemovedBound(initial, cells[offs[k] := EMPTY]);
  }

  /** Marking entry `k` removed and emptying its cell keeps the tracking. */
  lemma TracksAfter(rolls: seq<(bool, Point)>, initial: seq<u8>, cells: seq<u8>, width: nat, k: nat)
    requires width > 0 && k < |rolls| && |initial| == |cells|
    requires Tracks(rolls, RollOffsets(initial, |initial|), cells, width)
    ensures var offs := RollOffsets(initial, |initial|);
      Tracks(rolls[k := (true, rolls[k].1)], offs, cells[offs[k] := EMPTY], width)
  {
    RollOffsetsDistinct(initial, |initial|, k);
  }
}
