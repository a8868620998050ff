/**
 * The three cell coordinate spaces of the simulation: tile cells (44 x 25,
 * the outermost ring being the forced full-tile border), half-resolution edge
 * cells (89 x 51) and segment cells (45 x 26), and the ascending x-major
 * orders in which the model visits their dictionaries.
 */
module Grid {
  import opened Wrappers

  /** A CellCoord: an (x, y) pair of integers. */
  datatype Cell = Cell(x: int, y: int)

  predicate InTileGrid(c: Cell)
  {
    0 <= c.x < 44 && 0 <= c.y < 25
  }

  predicate InHalfGrid(c: Cell)
  {
    0 <= c.x < 89 && 0 <= c.y < 51
  }

  predicate InSegmentGrid(c: Cell)
  {
    0 <= c.x < 45 && 0 <= c.y < 26
  }

  /** The border ring of the tile grid, forced to the full tile. */
  predicate IsBorder(c: Cell)
  {
    c.x == 0 || c.x == 43 || c.y == 0 || c.y == 24
  }

  /** All tile cells, ascending by x and then by y. */
  function TileCells(): (cs: seq<Cell>)
    ensures |cs| == 44 * 25
  {
    seq(44 * 25, i => Cell(i / 25, i % 25))
  }

  /** All half-resolution cells, ascending by x and then by y. */
  function HalfCells(): (cs: seq<Cell>)
    ensures |cs| == 89 * 51
  {
    seq(89 * 51, i => Cell(i / 51, i % 51))
  }

  /** All segment cells, ascending by x and then by y. */
  function SegmentCells(): (cs: seq<Cell>)
    ensures |cs| == 45 * 26
  {
    seq(45 * 26, i => Cell(i / 26, i % 26))
  }

  lemma TileCellsEnumerate()
    ensures Distinct(TileCells())
    ensures forall c :: c in TileCells() <==> InTileGrid(c)
  {
    var cs := TileCells();
    forall c | InTileGrid(c) ensures c in cs {
      assert cs[c.x * 25 + c.y] == c;
    }
  }

  lemma HalfCellsEnumerate()
    ensures Distinct(HalfCells())
    ensures forall c :: c in HalfCells() <==> InHalfGrid(c)
  {
    var cs := HalfCells();
    forall c | InHalfGrid(c) ensures c in cs {
      assert cs[c.x * 51 + c.y] == c;
    }
  }

  lemma SegmentCellsEnumerate()
    ensures Distinct(SegmentCells())
    ensures forall c :: c in SegmentCells() <==> InSegmentGrid(c)
  {
    var cs := SegmentCells();
    forall c | InSegmentGrid(c) ensures c in cs {
      assert cs[c.x * 26 + c.y] == c;
    }
  }
}
