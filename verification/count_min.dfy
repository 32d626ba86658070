/** The count-min sketch (count_min.cc): a row of counters for each hash function, one counter of every row for an item. */
module CountMinSketch {
  import opened Common
  import opened Arithmetic

  /** A number for each item and row: a digest, a column, or the position of a counter. */
  type ByRow = (string, nat) -> nat

  datatype Entry = Entry(item: string, num: int)

  /** A counter is 32 bits wide. */
  function Wrap(x: int): nat { x % UINT32_SIZE }

  lemma WrapAdd(x: int, y: int)
    ensures Wrap(Wrap(x) + y) == Wrap(x + y)
  {
  }

  // ---------------------------------------------------------------- Cells

  /** The column of an item in a row: its digest, reduced by the number of hash functions. */
  function Columns(digest: ByRow, hashes: nat): ByRow
    requires 0 < hashes
  {
    (item, row) => digest(item, row) % hashes
  }

  function Cell(cells: nat, row: nat, column: nat): nat { row * cells + column }

  /** GetSketchCell. */
  function SketchCells(digest: ByRow, cells: nat, hashes: nat): ByRow
    requires 0 < hashes
  {
    (item, row) => Cell(cells, row, Columns(digest, hashes)(item, row))
  }

  lemma CellsAreDistinct(cells: nat, row: nat, column: nat, row': nat, column': nat)
    requires column < cells && column' < cells
    ensures Cell(cells, row, column) == Cell(cells, row', column') <==> row == row' && column == column'
  {
    if Cell(cells, row, column) == Cell(cells, row', column') {
      QuotientIsUnique(row, column, row', column', cells);
    }
  }

  lemma CellInRange(cells: nat, hashes: nat, row: nat, column: nat)
    requires row < hashes && column < cells
    ensures Cell(cells, row, column) < cells * hashes
  {
    MultiplyMonotone(row + 1, hashes, cells);
    assert (row + 1) * cells == row * cells + cells;
  }

  /** Every column that a digest can select is inside the sketch if and only if a row has at least as many cells as
      there are hash functions. */
  lemma InRangeIff(cells: nat, hashes: nat)
    requires 0 < hashes
    ensures (forall row: nat, column: nat :: row < hashes && column < hashes ==> Cell(cells, row, column) < cells * hashes)
            <==> hashes <= cells
  {
    if hashes <= cells {
      forall row: nat, column: nat | row < hashes && column < hashes ensures Cell(cells, row, column) < cells * hashes {
        CellInRange(cells, hashes, row, column);
      }
    } else {
      assert (hashes - 1) * cells == hashes * cells - cells;
      assert Cell(cells, hashes - 1, hashes - 1) >= cells * hashes;
    }
  }

  lemma CellAt(digest: ByRow, cells: nat, hashes: nat, item: string, row: nat)
    requires 0 < hashes
    ensures SketchCells(digest, cells, hashes)(item, row) == Cell(cells, row, digest(item, row) % hashes)
  {
    assert Columns(digest, hashes)(item, row) == digest(item, row) % hashes;
  }

  /** One cell and two hash functions: every odd digest selects a counter past the end of the two that there are. */
  lemma CellOutOfRange(digest: ByRow, item: string)
    requires digest(item, 1) % 2 == 1
    ensures !InRange(SketchCells(digest, 1, 2), 2, 1 * 2)
  {
    CellAt(digest, 1, 2, item, 1);
  }

  /** Two counters are the same only for the same row and the same column of it. */
  ghost predicate Separated(cellOf: ByRow, columnOf: ByRow) {
    forall x: string, i: nat, y: string, j: nat ::
      cellOf(x, i) == cellOf(y, j) <==> i == j && columnOf(x, i) == columnOf(y, j)
  }

  ghost predicate InRange(cellOf: ByRow, hashes: nat, length: nat) {
    forall x: string, i: nat :: i < hashes ==> cellOf(x, i) < length
  }

  /** Rows do not overlap, and no counter is outside the sketch. */
  lemma SketchLayout(digest: ByRow, cells: nat, hashes: nat)
    requires 0 < hashes <= cells
    ensures Separated(SketchCells(digest, cells, hashes), Columns(digest, hashes))
    ensures InRange(SketchCells(digest, cells, hashes), hashes, cells * hashes)
    ensures forall x: string, i: nat :: Columns(digest, hashes)(x, i) < hashes
  {
    var cellOf, columnOf := SketchCells(digest, cells, hashes), Columns(digest, hashes);
    forall x: string, i: nat, y: string, j: nat
      ensures cellOf(x, i) == cellOf(y, j) <==> i == j && columnOf(x, i) == columnOf(y, j)
    {
      CellsAreDistinct(cells, i, columnOf(x, i), j, columnOf(y, j));
    }
    forall x: string, i: nat | i < hashes ensures cellOf(x, i) < cells * hashes {
      CellInRange(cells, hashes, i, columnOf(x, i));
    }
  }

  // ---------------------------------------------------------------- Totals

  /** What one increment adds to counter k in the first `rows` rows. */
  function Added(cellOf: ByRow, e: Entry, k: nat, rows: nat): int {
    if rows == 0 then 0
    else Added(cellOf, e, k, rows - 1) + if cellOf(e.item, rows - 1) == k then e.num else 0
  }

  /** What all increments add to counter k. */
  function Counted(log: seq<Entry>, cellOf: ByRow, hashes: nat, k: nat): int {
    if log == [] then 0
    else Counted(log[..|log| - 1], cellOf, hashes, k) + Added(cellOf, log[|log| - 1], k, hashes)
  }

  /** A counter when an increment has gone through the first `rows` rows. */
  function Partial(log: seq<Entry>, cellOf: ByRow, hashes: nat, e: Entry, k: nat, rows: nat): nat {
    Wrap(Counted(log, cellOf, hashes, k) + Added(cellOf, e, k, rows))
  }

  lemma PartialStep(log: seq<Entry>, cellOf: ByRow, hashes: nat, e: Entry, k: nat, rows: nat)
    ensures Partial(log, cellOf, hashes, e, k, rows + 1) ==
            if cellOf(e.item, rows) == k then Wrap(Partial(log, cellOf, hashes, e, k, rows) + e.num)
            else Partial(log, cellOf, hashes, e, k, rows)
  {
    WrapAdd(Counted(log, cellOf, hashes, k) + Added(cellOf, e, k, rows), e.num);
  }

  lemma CountedAppend(log: seq<Entry>, e: Entry, cellOf: ByRow, hashes: nat, k: nat)
    ensures Counted(log + [e], cellOf, hashes, k) == Counted(log, cellOf, hashes, k) + Added(cellOf, e, k, hashes)
  {
    assert (log + [e])[..|log|] == log;
  }

  /** The total of the items that share an item's column in a row. */
  function Colliding(log: seq<Entry>, columnOf: ByRow, item: string, row: nat): int {
    if log == [] then 0
    else
      var last := log[|log| - 1];
      Colliding(log[..|log| - 1], columnOf, item, row)
      + if columnOf(last.item, row) == columnOf(item, row) then last.num else 0
  }

  function TrueCount(log: seq<Entry>, item: string): int {
    if log == [] then 0
    else TrueCount(log[..|log| - 1], item) + if log[|log| - 1].item == item then log[|log| - 1].num else 0
  }

  function GrandTotal(log: seq<Entry>): int {
    if log == [] then 0 else GrandTotal(log[..|log| - 1]) + log[|log| - 1].num
  }

  predicate NonNegative(log: seq<Entry>) { forall k :: 0 <= k < |log| ==> 0 <= log[k].num }

  lemma {:induction false} AddedOnce(cellOf: ByRow, columnOf: ByRow, e: Entry, item: string, row: nat, rows: nat)
    requires Separated(cellOf, columnOf)
    ensures Added(cellOf, e, cellOf(item, row), rows) ==
            if row < rows && columnOf(e.item, row) == columnOf(item, row) then e.num else 0
  {
    if rows != 0 {
      AddedOnce(cellOf, columnOf, e, item, row, rows - 1);
    }
  }

  /** A counter holds the total of exactly the items that collide with the item in that row. */
  lemma {:induction false} CountedIsColliding(log: seq<Entry>, cellOf: ByRow, columnOf: ByRow, hashes: nat, item: string, row: nat)
    requires Separated(cellOf, columnOf) && row < hashes
    ensures Counted(log, cellOf, hashes, cellOf(item, row)) == Colliding(log, columnOf, item, row)
  {
    if log != [] {
      CountedIsColliding(log[..|log| - 1], cellOf, columnOf, hashes, item, row);
      AddedOnce(cellOf, columnOf, log[|log| - 1], item, row, hashes);
    }
  }

  lemma {:induction false} CollidingBounds(log: seq<Entry>, columnOf: ByRow, item: string, row: nat)
    requires NonNegative(log)
    ensures 0 <= TrueCount(log, item) <= Colliding(log, columnOf, item, row) <= GrandTotal(log)
  {
    if log != [] {
      CollidingBounds(log[..|log| - 1], columnOf, item, row);
    }
  }

  lemma {:induction false} OneHashCollides(log: seq<Entry>, digest: ByRow, item: string)
    ensures Colliding(log, Columns(digest, 1), item, 0) == GrandTotal(log)
  {
    if log != [] {
      OneHashCollides(log[..|log| - 1], digest, item);
    }
  }

  lemma {:induction false} NothingAdded(cellOf: ByRow, e: Entry, k: nat, rows: nat)
    requires forall i: nat :: i < rows ==> cellOf(e.item, i) != k
    ensures Added(cellOf, e, k, rows) == 0
  {
    if rows != 0 {
      NothingAdded(cellOf, e, k, rows - 1);
    }
  }

  /** Of every row only the first num_hashes counters are ever used. */
  lemma {:induction false} UnusedCells(log: seq<Entry>, digest: ByRow, cells: nat, hashes: nat, row: nat, column: nat)
    requires 0 < hashes <= column < cells
    ensures Counted(log, SketchCells(digest, cells, hashes), hashes, Cell(cells, row, column)) == 0
  {
    if log != [] {
      var cellOf, e := SketchCells(digest, cells, hashes), log[|log| - 1];
      UnusedCells(log[..|log| - 1], digest, cells, hashes, row, column);
      forall i: nat | i < hashes ensures cellOf(e.item, i) != Cell(cells, row, column) {
        CellsAreDistinct(cells, i, Columns(digest, hashes)(e.item, i), row, column);
      }
      NothingAdded(cellOf, e, Cell(cells, row, column), hashes);
    }
  }

  // ---------------------------------------------------------------- Estimates

  /** What an item's counter in a row holds. */
  function Reading(log: seq<Entry>, cellOf: ByRow, hashes: nat, item: string, row: nat): nat {
    Wrap(Counted(log, cellOf, hashes, cellOf(item, row)))
  }

  /** r is the least of the item's counters. */
  ghost predicate IsLeast(r: nat, log: seq<Entry>, cellOf: ByRow, hashes: nat, item: string) {
    && (exists row: nat :: row < hashes && r == Reading(log, cellOf, hashes, item, row))
    && (forall row: nat :: row < hashes ==> r <= Reading(log, cellOf, hashes, item, row))
  }

  lemma ReadingIsColliding(log: seq<Entry>, cellOf: ByRow, columnOf: ByRow, hashes: nat, item: string, row: nat)
    requires Separated(cellOf, columnOf) && row < hashes && NonNegative(log) && GrandTotal(log) < 0x1_0000_0000
    ensures Reading(log, cellOf, hashes, item, row) == Colliding(log, columnOf, item, row)
    ensures TrueCount(log, item) <= Colliding(log, columnOf, item, row) <= GrandTotal(log)
  {
    CountedIsColliding(log, cellOf, columnOf, hashes, item, row);
    CollidingBounds(log, columnOf, item, row);
  }

  /** r is the least over the rows of the totals that collide with the item. */
  ghost predicate IsLeastColliding(r: nat, log: seq<Entry>, columnOf: ByRow, hashes: nat, item: string) {
    && (exists row: nat :: row < hashes && r == Colliding(log, columnOf, item, row))
    && (forall row: nat :: row < hashes ==> r <= Colliding(log, columnOf, item, row))
  }

  /** In some row nothing else was counted with the item. */
  ghost predicate SomeRowExact(log: seq<Entry>, columnOf: ByRow, hashes: nat, item: string) {
    exists row: nat :: row < hashes && Colliding(log, columnOf, item, row) == TrueCount(log, item)
  }

  lemma LeastIsColliding(r: nat, log: seq<Entry>, cellOf: ByRow, columnOf: ByRow, hashes: nat, item: string)
    requires Separated(cellOf, columnOf) && NonNegative(log) && GrandTotal(log) < 0x1_0000_0000
    requires IsLeast(r, log, cellOf, hashes, item)
    ensures IsLeastColliding(r, log, columnOf, hashes, item)
  {
    forall row: nat | row < hashes
      ensures Reading(log, cellOf, hashes, item, row) == Colliding(log, columnOf, item, row)
    {
      ReadingIsColliding(log, cellOf, columnOf, hashes, item, row);
    }
    var row: nat :| row < hashes && r == Reading(log, cellOf, hashes, item, row);
    assert r == Colliding(log, columnOf, item, row);
  }

  lemma LeastCollidingBounds(r: nat, log: seq<Entry>, columnOf: ByRow, hashes: nat, item: string)
    requires NonNegative(log) && IsLeastColliding(r, log, columnOf, hashes, item)
    ensures TrueCount(log, item) <= r <= GrandTotal(log)
    ensures r == TrueCount(log, item) <==> SomeRowExact(log, columnOf, hashes, item)
  {
    forall row: nat | row < hashes
      ensures TrueCount(log, item) <= Colliding(log, columnOf, item, row) <= GrandTotal(log)
    {
      CollidingBounds(log, columnOf, item, row);
    }
    var row: nat :| row < hashes && r == Colliding(log, columnOf, item, row);
    assert TrueCount(log, item) <= Colliding(log, columnOf, item, row);
  }

  /** While nothing overflows, the estimate is the least over the rows of the totals that collide with the item. So it is
      never below the true count and never above the grand total, and it is exact if and only if in some row nothing
      else was counted with the item. */
  lemma EstimateBounds(r: nat, log: seq<Entry>, digest: ByRow, cells: nat, hashes: nat, item: string)
    requires 0 < hashes <= cells && NonNegative(log) && GrandTotal(log) < 0x1_0000_0000
    requires IsLeast(r, log, SketchCells(digest, cells, hashes), hashes, item)
    ensures IsLeastColliding(r, log, Columns(digest, hashes), hashes, item)
    ensures TrueCount(log, item) <= r <= GrandTotal(log)
    ensures r == TrueCount(log, item) <==> SomeRowExact(log, Columns(digest, hashes), hashes, item)
  {
    SketchLayout(digest, cells, hashes);
    LeastIsColliding(r, log, SketchCells(digest, cells, hashes), Columns(digest, hashes), hashes, item);
    LeastCollidingBounds(r, log, Columns(digest, hashes), hashes, item);
  }

  /** With one hash function all items collide, however many cells there are, since the digest is reduced modulo 1: the
      estimate of every item, counted or not, is the grand total. */
  lemma OneHashCountsEverything(r: nat, log: seq<Entry>, digest: ByRow, cells: nat, item: string)
    requires 0 < cells && IsLeast(r, log, SketchCells(digest, cells, 1), 1, item)
    ensures r == GrandTotal(log) % 0x1_0000_0000
  {
    SketchLayout(digest, cells, 1);
    CountedIsColliding(log, SketchCells(digest, cells, 1), Columns(digest, 1), 1, item, 0);
    OneHashCollides(log, digest, item);
  }

  // ---------------------------------------------------------------- The sketch

  class CountMin {
    const numHashes: nat
    const cellOf: ByRow
    const cells: array<nat>
    /** Everything counted so far, oldest first. */
    ghost var log: seq<Entry>

    ghost predicate Valid()
      reads this, cells
    {
      && InRange(cellOf, numHashes, cells.Length)
      && forall k :: 0 <= k < cells.Length ==> cells[k] == Wrap(Counted(log, cellOf, numHashes, k))
    }

    constructor (numCells: nat, numHashes: nat, digest: ByRow)
      requires 0 < numHashes <= numCells
      ensures Valid() && log == [] && fresh(cells) && cells.Length == numCells * numHashes
      ensures this.numHashes == numHashes && this.cellOf == SketchCells(digest, numCells, numHashes)
    {
      this.numHashes := numHashes;
      cellOf := SketchCells(digest, numCells, numHashes);
      cells := new nat[numCells * numHashes](_ => 0);
      log := [];
      SketchLayout(digest, numCells, numHashes);
    }

    /** Increment: a counter that overflows wraps, and a negative num subtracts. */
    method Increment(item: string, num: int)
      requires Valid()
      modifies this`log, cells
      ensures Valid() && log == old(log) + [Entry(item, num)]
    {
      ghost var e := Entry(item, num);
      for i := 0 to numHashes
        invariant log == old(log)
        invariant forall k :: 0 <= k < cells.Length ==> cells[k] == Partial(log, cellOf, numHashes, e, k, i)
      {
        ghost var before := cells[..];
        var k := cellOf(item, i);
        cells[k] := Wrap(cells[k] + num);
        forall j | 0 <= j < cells.Length ensures cells[j] == Partial(log, cellOf, numHashes, e, j, i + 1) {
          assert cells[j] == if j == k then Wrap(before[k] + num) else before[j];
          PartialStep(log, cellOf, numHashes, e, j, i);
        }
      }
      log := log + [e];
      forall k | 0 <= k < cells.Length ensures cells[k] == Wrap(Counted(log, cellOf, numHashes, k)) {
        CountedAppend(old(log), e, cellOf, numHashes, k);
      }
    }

    /** GetCount. */
    method GetCount(item: string) returns (r: nat)
      requires Valid()
      ensures if numHashes == 0 then r == 0 else IsLeast(r, log, cellOf, numHashes, item)
    {
      r := 0;
      for i := 0 to numHashes
        invariant if i == 0 then r == 0
                  else exists row: nat :: row < i && r == Reading(log, cellOf, numHashes, item, row)
        invariant forall row: nat :: row < i ==> r <= Reading(log, cellOf, numHashes, item, row)
      {
        var count := cells[cellOf(item, i)];
        assert count == Reading(log, cellOf, numHashes, item, i);
        if count < r || i == 0 {
          r := count;
        }
      }
    }
  }
}
