/**
 * The four constant lookup tables that give each tile id its contribution to
 * the collision geometry (src/simulation.cpp:27-137).
 *
 * A 12-entry row is laid out as the source lays it out: entries 0-5 are the
 * horizontal half-edges of the tile, row by row (index 2*y + x for x < 2,
 * y < 3), and entries 6-11 the vertical half-edges, column by column
 * (index 6 + 2*x + y for x < 3, y < 2).
 */
module TileTables {
  import opened Wrappers

  datatype Row = Row(e0: int, e1: int, e2: int, e3: int, e4: int, e5: int,
                     e6: int, e7: int, e8: int, e9: int, e10: int, e11: int)
  {
    function At(k: int): int
      requires 0 <= k < 12
    {
      match k
      case 0 => e0 case 1 => e1 case 2 => e2 case 3 => e3 case 4 => e4 case 5 => e5
      case 6 => e6 case 7 => e7 case 8 => e8 case 9 => e9 case 10 => e10 case 11 => e11
    }
  }

  /** A pixel position, or a quadrant direction for an arc. */
  datatype Point = Point(x: int, y: int)

  /** Parameters of a quarter-circle segment: centre offset, quadrant, convexity. */
  datatype ArcShape = ArcShape(center: Point, quadrant: Point, convex: bool)

  /** TILE_GRID_EDGE_MAP: boundary-edge parity contributions (src/simulation.cpp:27-65). */
  function GridEdgeRow(id: int): Option<Row>
  {
    match id
    case 0 => Some(Row(0, 0, 0, 0, 0, 0, 0, 0, 0, 0, 0, 0))
    case 1 => Some(Row(1, 1, 0, 0, 1, 1, 1, 1, 0, 0, 1, 1))
    case 2 => Some(Row(1, 1, 1, 1, 0, 0, 1, 0, 0, 0, 1, 0))
    case 3 => Some(Row(0, 1, 0, 0, 0, 1, 0, 0, 1, 1, 1, 1))
    case 4 => Some(Row(0, 0, 1, 1, 1, 1, 0, 1, 0, 0, 0, 1))
    case 5 => Some(Row(1, 0, 0, 0, 1, 0, 1, 1, 1, 1, 0, 0))
    case 6 => Some(Row(1, 1, 0, 1, 1, 0, 1, 1, 0, 1, 1, 0))
    case 7 => Some(Row(1, 1, 1, 0, 0, 1, 1, 0, 0, 1, 1, 1))
    case 8 => Some(Row(0, 1, 1, 0, 1, 1, 0, 1, 1, 0, 1, 1))
    case 9 => Some(Row(1, 0, 0, 1, 1, 1, 1, 1, 1, 0, 0, 1))
    case 10 => Some(Row(1, 1, 0, 0, 1, 1, 1, 1, 0, 0, 1, 1))
    case 11 => Some(Row(1, 1, 0, 0, 1, 1, 1, 1, 0, 0, 1, 1))
    case 12 => Some(Row(1, 1, 0, 0, 1, 1, 1, 1, 0, 0, 1, 1))
    case 13 => Some(Row(1, 1, 0, 0, 1, 1, 1, 1, 0, 0, 1, 1))
    case 14 => Some(Row(1, 1, 0, 1, 1, 0, 1, 1, 0, 1, 1, 0))
    case 15 => Some(Row(1, 1, 1, 0, 0, 1, 1, 0, 0, 1, 1, 1))
    case 16 => Some(Row(0, 1, 1, 0, 1, 1, 0, 1, 1, 0, 1, 1))
    case 17 => Some(Row(1, 0, 0, 1, 1, 1, 1, 1, 1, 0, 0, 1))
    case 18 => Some(Row(1, 1, 1, 1, 0, 0, 1, 0, 0, 0, 1, 0))
    case 19 => Some(Row(1, 1, 1, 1, 0, 0, 1, 0, 0, 0, 1, 0))
    case 20 => Some(Row(0, 0, 1, 1, 1, 1, 0, 1, 0, 0, 0, 1))
    case 21 => Some(Row(0, 0, 1, 1, 1, 1, 0, 1, 0, 0, 0, 1))
    case 22 => Some(Row(1, 1, 0, 0, 1, 1, 1, 1, 0, 0, 1, 1))
    case 23 => Some(Row(1, 1, 0, 0, 1, 1, 1, 1, 0, 0, 1, 1))
    case 24 => Some(Row(1, 1, 0, 0, 1, 1, 1, 1, 0, 0, 1, 1))
    case 25 => Some(Row(1, 1, 0, 0, 1, 1, 1, 1, 0, 0, 1, 1))
    case 26 => Some(Row(1, 0, 0, 0, 1, 0, 1, 1, 1, 1, 0, 0))
    case 27 => Some(Row(0, 1, 0, 0, 0, 1, 0, 0, 1, 1, 1, 1))
    case 28 => Some(Row(0, 1, 0, 0, 0, 1, 0, 0, 1, 1, 1, 1))
    case 29 => Some(Row(1, 0, 0, 0, 1, 0, 1, 1, 1, 1, 0, 0))
    case 30 => Some(Row(1, 1, 0, 0, 1, 1, 1, 1, 0, 0, 1, 1))
    case 31 => Some(Row(1, 1, 0, 0, 1, 1, 1, 1, 0, 0, 1, 1))
    case 32 => Some(Row(1, 1, 0, 0, 1, 1, 1, 1, 0, 0, 1, 1))
    case 33 => Some(Row(1, 1, 0, 0, 1, 1, 1, 1, 0, 0, 1, 1))
    case 34 => Some(Row(1, 1, 0, 0, 0, 0, 0, 0, 0, 0, 0, 0))
    case 35 => Some(Row(0, 0, 0, 0, 0, 0, 0, 0, 0, 0, 1, 1))
    case 36 => Some(Row(0, 0, 0, 0, 1, 1, 0, 0, 0, 0, 0, 0))
    case 37 => Some(Row(0, 0, 0, 0, 0, 0, 1, 1, 0, 0, 0, 0))
    case _ => None
  }

  /** TILE_SEGMENT_ORTHO_MAP: signed boundary-strength contributions (src/simulation.cpp:67-105). */
  function OrthoRow(id: int): Option<Row>
  {
    match id
    case 0 => Some(Row(0, 0, 0, 0, 0, 0, 0, 0, 0, 0, 0, 0))
    case 1 => Some(Row(-1, -1, 0, 0, 1, 1, -1, -1, 0, 0, 1, 1))
    case 2 => Some(Row(-1, -1, 1, 1, 0, 0, -1, 0, 0, 0, 1, 0))
    case 3 => Some(Row(0, -1, 0, 0, 0, 1, 0, 0, -1, -1, 1, 1))
    case 4 => Some(Row(0, 0, -1, -1, 1, 1, 0, -1, 0, 0, 0, 1))
    case 5 => Some(Row(-1, 0, 0, 0, 1, 0, -1, -1, 1, 1, 0, 0))
    case 6 => Some(Row(-1, -1, 0, 0, 0, 0, -1, -1, 0, 0, 0, 0))
    case 7 => Some(Row(-1, -1, 0, 0, 0, 0, 0, 0, 0, 0, 1, 1))
    case 8 => Some(Row(0, 0, 0, 0, 1, 1, 0, 0, 0, 0, 1, 1))
    case 9 => Some(Row(0, 0, 0, 0, 1, 1, -1, -1, 0, 0, 0, 0))
    case 10 => Some(Row(-1, -1, 0, 0, 0, 0, -1, -1, 0, 0, 0, 0))
    case 11 => Some(Row(-1, -1, 0, 0, 0, 0, 0, 0, 0, 0, 1, 1))
    case 12 => Some(Row(0, 0, 0, 0, 1, 1, 0, 0, 0, 0, 1, 1))
    case 13 => Some(Row(0, 0, 0, 0, 1, 1, -1, -1, 0, 0, 0, 0))
    case 14 => Some(Row(-1, -1, 0, 0, 0, 0, -1, -1, 0, 0, 0, 0))
    case 15 => Some(Row(-1, -1, 0, 0, 0, 0, 0, 0, 0, 0, 1, 1))
    case 16 => Some(Row(0, 0, 0, 0, 1, 1, 0, 0, 0, 0, 1, 1))
    case 17 => Some(Row(0, 0, 0, 0, 1, 1, -1, -1, 0, 0, 0, 0))
    case 18 => Some(Row(-1, -1, 0, 0, 0, 0, -1, 0, 0, 0, 0, 0))
    case 19 => Some(Row(-1, -1, 0, 0, 0, 0, 0, 0, 0, 0, 1, 0))
    case 20 => Some(Row(0, 0, 0, 0, 1, 1, 0, 0, 0, 0, 0, 1))
    case 21 => Some(Row(0, 0, 0, 0, 1, 1, 0, -1, 0, 0, 0, 0))
    case 22 => Some(Row(-1, -1, 0, 0, 0, 0, -1, -1, 0, 0, 1, 0))
    case 23 => Some(Row(-1, -1, 0, 0, 0, 0, -1, 0, 0, 0, 1, 1))
    case 24 => Some(Row(0, 0, 0, 0, 1, 1, 0, -1, 0, 0, 1, 1))
    case 25 => Some(Row(0, 0, 0, 0, 1, 1, -1, -1, 0, 0, 0, 1))
    case 26 => Some(Row(-1, 0, 0, 0, 0, 0, -1, -1, 0, 0, 0, 0))
    case 27 => Some(Row(0, -1, 0, 0, 0, 0, 0, 0, 0, 0, 1, 1))
    case 28 => Some(Row(0, 0, 0, 0, 0, 1, 0, 0, 0, 0, 1, 1))
    case 29 => Some(Row(0, 0, 0, 0, 1, 0, -1, -1, 0, 0, 0, 0))
    case 30 => Some(Row(-1, -1, 0, 0, 1, 0, -1, -1, 0, 0, 0, 0))
    case 31 => Some(Row(-1, -1, 0, 0, 0, 1, 0, 0, 0, 0, 1, 1))
    case 32 => Some(Row(0, -1, 0, 0, 1, 1, 0, 0, 0, 0, 1, 1))
    case 33 => Some(Row(-1, 0, 0, 0, 1, 1, -1, -1, 0, 0, 0, 0))
    case 34 => Some(Row(-1, -1, 0, 0, 0, 0, 0, 0, 0, 0, 0, 0))
    case 35 => Some(Row(0, 0, 0, 0, 0, 0, 0, 0, 0, 0, 1, 1))
    case 36 => Some(Row(0, 0, 0, 0, 1, 1, 0, 0, 0, 0, 0, 0))
    case 37 => Some(Row(0, 0, 0, 0, 0, 0, -1, -1, 0, 0, 0, 0))
    case _ => None
  }

  /** TILE_SEGMENT_DIAG_MAP: endpoints of the one sloped segment of ids 6-9 and 18-33 (src/simulation.cpp:107-127). */
  function DiagRow(id: int): Option<(Point, Point)>
  {
    match id
    case 6 => Some((Point(0, 24), Point(24, 0)))
    case 7 => Some((Point(0, 0), Point(24, 24)))
    case 8 => Some((Point(24, 0), Point(0, 24)))
    case 9 => Some((Point(24, 24), Point(0, 0)))
    case 18 => Some((Point(0, 12), Point(24, 0)))
    case 19 => Some((Point(0, 0), Point(24, 12)))
    case 20 => Some((Point(24, 12), Point(0, 24)))
    case 21 => Some((Point(24, 24), Point(0, 12)))
    case 22 => Some((Point(0, 24), Point(24, 12)))
    case 23 => Some((Point(0, 12), Point(24, 24)))
    case 24 => Some((Point(24, 0), Point(0, 12)))
    case 25 => Some((Point(24, 12), Point(0, 0)))
    case 26 => Some((Point(0, 24), Point(12, 0)))
    case 27 => Some((Point(12, 0), Point(24, 24)))
    case 28 => Some((Point(24, 0), Point(12, 24)))
    case 29 => Some((Point(12, 24), Point(0, 0)))
    case 30 => Some((Point(12, 24), Point(24, 0)))
    case 31 => Some((Point(0, 0), Point(12, 24)))
    case 32 => Some((Point(12, 0), Point(0, 24)))
    case 33 => Some((Point(24, 24), Point(12, 0)))
    case _ => None
  }

  /** TILE_SEGMENT_CIRCULAR_MAP: the one arc of ids 10-17 (src/simulation.cpp:129-137). */
  function CircularRow(id: int): Option<ArcShape>
  {
    match id
    case 10 => Some(ArcShape(Point(0, 0), Point(1, 1), true))
    case 11 => Some(ArcShape(Point(24, 0), Point(-1, 1), true))
    case 12 => Some(ArcShape(Point(24, 24), Point(-1, -1), true))
    case 13 => Some(ArcShape(Point(0, 24), Point(1, -1), true))
    case 14 => Some(ArcShape(Point(24, 24), Point(-1, -1), false))
    case 15 => Some(ArcShape(Point(0, 24), Point(1, -1), false))
    case 16 => Some(ArcShape(Point(0, 0), Point(1, 1), false))
    case 17 => Some(ArcShape(Point(24, 0), Point(-1, 1), false))
    case _ => None
  }

  /** Every parity entry is 0 or 1, so the source's `%` never sees a negative operand. */
  predicate ParityRowOk(r: Row)
  {
    forall k :: 0 <= k < 12 ==> 0 <= r.At(k) <= 1
  }

  /**
   * The sign pattern of a strength row: the top and left half-edges (entries
   * 0, 1, 6, 7) are never positive, the bottom and right ones (4, 5, 10, 11)
   * never negative, and the middle ones (2, 3, 8, 9) lie in -1..1.
   */
  predicate StrengthRowOk(r: Row)
  {
    -1 <= r.e0 <= 0 && -1 <= r.e1 <= 0 && -1 <= r.e2 <= 1 && -1 <= r.e3 <= 1 &&
    0 <= r.e4 <= 1 && 0 <= r.e5 <= 1 &&
    -1 <= r.e6 <= 0 && -1 <= r.e7 <= 0 && -1 <= r.e8 <= 1 && -1 <= r.e9 <= 1 &&
    0 <= r.e10 <= 1 && 0 <= r.e11 <= 1
  }

  /** Both orthogonal tables know exactly the ids 0-37. */
  lemma OrthoTablesKnowSameIds(id: int)
    ensures GridEdgeRow(id).Some? <==> 0 <= id < 38
    ensures OrthoRow(id).Some? <==> 0 <= id < 38
  {
  }

  lemma ParityRowsAreBits(id: int)
    ensures GridEdgeRow(id).Some? ==> ParityRowOk(GridEdgeRow(id).value)
  {
  }

  lemma StrengthRowsBounded(id: int)
    ensures OrthoRow(id).Some? ==> StrengthRowOk(OrthoRow(id).value)
  {
    if id < 19 {
      StrengthRowsBoundedBelow(id);
    } else {
      StrengthRowsBoundedAbove(id);
    }
  }

  /** StrengthRowsBounded for the ids 0-18. */
  lemma StrengthRowsBoundedBelow(id: int)
    requires id < 19
    ensures OrthoRow(id).Some? ==> StrengthRowOk(OrthoRow(id).value)
  {
  }

  /** StrengthRowsBounded for the ids 19-37. */
  lemma StrengthRowsBoundedAbove(id: int)
    requires id >= 19
    ensures OrthoRow(id).Some? ==> StrengthRowOk(OrthoRow(id).value)
  {
  }

  /** Ids 6-9 and 18-33 have a sloped segment, ids 10-17 an arc, and no id has both. */
  lemma ShapeTablesDisjoint(id: int)
    ensures DiagRow(id).Some? <==> (6 <= id <= 9 || 18 <= id <= 33)
    ensures CircularRow(id).Some? <==> 10 <= id <= 17
  {
  }
}
