/**
 * Class Simulation: the dictionaries the map is loaded into, the entity
 * registry, and the per-frame tick.
 */
module Simulator {
  import opened Wrappers
  import opened Grid
  import opened TileTables
  import opened TileGeometry
  import opened MapFormat
  import opened Entities
  import opened Factory
  import opened Registry
  import opened EntityRegistry
  import opened TickTrace
  import DoorLockedEntity

  /** The tile id of a cell of the grid: 1 on the border, else its byte in the tile block. */
  function TileAt(data: seq<byte>, c: Cell): int
    requires |data| >= TILE_DATA_END && InTileGrid(c)
  {
    if IsBorder(c) then 1 else data[TILE_DATA_START + (c.x - 1) + 42 * (c.y - 1)] as int
  }

  /** The initial parity of a half grid position: 1 on the outer border lines of the axis. */
  function BorderParity(axis: Axis, p: Cell): int
  {
    match axis
    case Horizontal => if p.y == 0 || p.y == 50 then 1 else 0
    case Vertical => if p.x == 0 || p.x == 88 then 1 else 0
  }

  /** An id missing from either orthogonal table adds nothing on either layer or axis. */
  lemma NoRowsNoContribution(id: int, c: Cell)
    requires OrthoRows(id).None?
    ensures forall layer, axis, p :: Contribution(layer, axis, id, c, p) == 0
  {
  }

  /**
   * One read-modify-write of a half grid dictionary: the value at pos (0 when
   * absent) bumped by the row entry d, which is entry n of the tile's row.
   */
  method BumpEntry(layer: Layer, ghost m: map<Cell, int>, ghost entry: int -> int, axis: Axis, c: Cell, ghost n: int,
                   pos: Cell, cur: map<Cell, int>, d: int)
    returns (r: map<Cell, int>)
    requires FirstEntry(axis) <= n && pos == EntryPosition(axis, c, n) && d == entry(n)
    requires cur == Applied(layer, m, entry, axis, c, n)
    ensures r == Applied(layer, m, entry, axis, c, n + 1)
  {
    AppliedStep(layer, m, entry, axis, c, n, n + 1, pos, cur, d);
    r := cur[pos := Bump(layer, GetOr(cur, pos, 0), d)];
  }

  /**
   * One line y of the horizontal half edges of tile c on one layer (lines
   * 254-262): entry 2y + x of the row goes to (2c.x + x, 2c.y + y).
   */
  method HorizontalLine(layer: Layer, c: Cell, y: int, entry: int -> int, m0: map<Cell, int>, m1: map<Cell, int>)
    returns (m: map<Cell, int>)
    requires 0 <= y < 3
    requires m1 == Applied(layer, m0, entry, Horizontal, c, 2 * y)
    ensures m == Applied(layer, m0, entry, Horizontal, c, 2 * y + 2)
  {
    m := m1;
    var x := 0;
    ghost var n := 2 * y;
    while x < 2
      invariant 0 <= x <= 2 && n == 2 * y + x
      invariant m == Applied(layer, m0, entry, Horizontal, c, n)
    {
      var pos := Cell(2 * c.x + x, 2 * c.y + y);
      HorizontalPosition(c, x, y, n);
      m := BumpEntry(layer, m0, entry, Horizontal, c, n, pos, m, entry(2 * y + x));
      x, n := x + 1, n + 1;
    }
  }

  /** All three lines of horizontal half edges of tile c on one layer: the row entries 0 .. 5 applied in order. */
  method HorizontalRows(layer: Layer, c: Cell, entry: int -> int, m0: map<Cell, int>) returns (m: map<Cell, int>)
    ensures m == Applied(layer, m0, entry, Horizontal, c, 6)
  {
    m := m0;
    for y := 0 to 3
      invariant m == Applied(layer, m0, entry, Horizontal, c, 2 * y)
    {
      m := HorizontalLine(layer, c, y, entry, m0, m);
    }
  }

  /**
   * One column x of the vertical half edges of tile c on one layer (lines
   * 264-273): entry 2x + y + 6 of the row goes to (2c.x + x, 2c.y + y).
   */
  method VerticalLine(layer: Layer, c: Cell, x: int, entry: int -> int, m0: map<Cell, int>, m1: map<Cell, int>)
    returns (m: map<Cell, int>)
    requires 0 <= x < 3
    requires m1 == Applied(layer, m0, entry, Vertical, c, 6 + 2 * x)
    ensures m == Applied(layer, m0, entry, Vertical, c, 6 + 2 * x + 2)
  {
    m := m1;
    var y := 0;
    ghost var n := 6 + 2 * x;
    while y < 2
      invariant 0 <= y <= 2 && n == 6 + 2 * x + y
      invariant m == Applied(layer, m0, entry, Vertical, c, n)
    {
      var pos := Cell(2 * c.x + x, 2 * c.y + y);
      VerticalPosition(c, x, y, n);
      m := BumpEntry(layer, m0, entry, Vertical, c, n, pos, m, entry(2 * x + y + 6));
      y, n := y + 1, n + 1;
    }
  }

  /** All three columns of vertical half edges of tile c on one layer: the row entries 6 .. 11 applied in order. */
  method VerticalRows(layer: Layer, c: Cell, entry: int -> int, m0: map<Cell, int>) returns (m: map<Cell, int>)
    ensures m == Applied(layer, m0, entry, Vertical, c, 12)
  {
    m := m0;
    for x := 0 to 3
      invariant m == Applied(layer, m0, entry, Vertical, c, 6 + 2 * x)
    {
      m := VerticalLine(layer, c, x, entry, m0, m);
    }
  }

  /**
   * One layer of one axis of tile c (lines 245-274): when both orthogonal
   * tables know the id, every position is bumped by exactly its Contribution;
   * otherwise nothing changes. The source updates a parity and a strength
   * dictionary in the same pass; they are distinct dictionaries, so handling
   * them one after the other ends in the same state.
   */
  method TileRows(layer: Layer, axis: Axis, c: Cell, id: int, m0: map<Cell, int>) returns (m: map<Cell, int>)
    requires (layer == Parity ==> Bits(m0)) && Touches(axis, c, m0)
    ensures m == WithContribution(layer, axis, id, c, m0)
  {
    var rows := OrthoRows(id);
    if rows.Some? {
      var (e, o) := rows.value;
      AppliedContribution(layer, axis, id, e, o, c, m0);
      ghost var target := Applied(layer, m0, LayerRow(layer, e, o), axis, c, FirstEntry(axis) + 6);
      match axis
      case Horizontal => m := HorizontalRows(layer, c, LayerRow(layer, e, o), m0);
      case Vertical => m := VerticalRows(layer, c, LayerRow(layer, e, o), m0);
      assert m == target;
    } else {
      NoRowsUnchanged(layer, axis, id, c, m0);
      m := m0;
    }
  }

  /** A half grid dictionary as resetMapTileData leaves it. */
  function ResetLayer(layer: Layer, axis: Axis): map<Cell, int>
  {
    map p | p in HalfCells() :: ResetValue(layer, axis, p)
  }

  /** The segment dictionary as resetMapTileData leaves it: an empty list for each of the 45 x 26 cells. */
  function EmptySegments(): map<Cell, seq<Segment>>
  {
    map c | c in SegmentCells() :: []
  }

  /** A dictionary with the reset keys and values is the reset layer. */
  lemma ResetLayerIs(m: map<Cell, int>, layer: Layer, axis: Axis)
    requires forall p: Cell :: p in m <==> InHalfGrid(p)
    requires forall p: Cell :: p in m ==> m[p] == ResetValue(layer, axis, p)
    ensures m == ResetLayer(layer, axis)
  {
    HalfCellsEnumerate();
  }

  /** A dictionary of empty lists for exactly the segment cells is the reset segment dictionary. */
  lemma EmptySegmentsIs(s: map<Cell, seq<Segment>>)
    requires forall c: Cell :: c in s <==> InSegmentGrid(c)
    requires forall c: Cell :: c in s ==> s[c] == []
    ensures s == EmptySegments()
  {
    SegmentCellsEnumerate();
  }

  /** The positions the half grid reset has visited before (x, y): columns before x, then y cells of column x. */
  ghost predicate HalfPrefix(p: Cell, x: int, y: int)
  {
    (0 <= p.x < x && 0 <= p.y < 51) || (p.x == x && 0 <= p.y < y)
  }

  /** The reset value of a half grid position: its border parity, or strength 0. */
  function ResetValue(layer: Layer, axis: Axis, p: Cell): int
  {
    match layer
    case Parity => BorderParity(axis, p)
    case Strength => 0
  }

  /** A half grid dictionary holds exactly the positions visited before (x, y), each with its reset value. */
  ghost predicate ResetUpTo(m: map<Cell, int>, layer: Layer, axis: Axis, x: int, y: int)
  {
    && (forall p: Cell :: p in m <==> HalfPrefix(p, x, y))
    && (forall p: Cell :: p in m ==> m[p] == ResetValue(layer, axis, p))
  }

  /** Setting (x, y) to its reset value extends the visited prefix by one. */
  lemma ResetStep(m: map<Cell, int>, layer: Layer, axis: Axis, x: int, y: int, next: int)
    requires ResetUpTo(m, layer, axis, x, y) && 0 <= y && next == y + 1
    ensures ResetUpTo(m[Cell(x, y) := ResetValue(layer, axis, Cell(x, y))], layer, axis, x, next)
  {
  }

  /** A finished column is the start of the next one. */
  lemma ResetColumnDone(m: map<Cell, int>, layer: Layer, axis: Axis, x: int, next: int)
    requires ResetUpTo(m, layer, axis, x, 51) && 0 <= x && next == x + 1
    ensures ResetUpTo(m, layer, axis, next, 0)
  {
    assert forall p: Cell :: HalfPrefix(p, x, 51) <==> HalfPrefix(p, next, 0);
  }

  /** The four half grid dictionaries after the reset has visited every position before (x, y). */
  ghost predicate HalfReset(x: int, y: int, h: map<Cell, int>, v: map<Cell, int>, hs: map<Cell, int>, vs: map<Cell, int>)
  {
    && ResetUpTo(h, Parity, Horizontal, x, y) && ResetUpTo(v, Parity, Vertical, x, y)
    && ResetUpTo(hs, Strength, Horizontal, x, y) && ResetUpTo(vs, Strength, Vertical, x, y)
  }

  /** Column x of the half grid reset (lines 183-192): parity 1 on the border lines, strengths 0. */
  method ResetColumn(x: int, h0: map<Cell, int>, v0: map<Cell, int>, hs0: map<Cell, int>, vs0: map<Cell, int>)
    returns (h: map<Cell, int>, v: map<Cell, int>, hs: map<Cell, int>, vs: map<Cell, int>)
    requires 0 <= x < 89 && HalfReset(x, 0, h0, v0, hs0, vs0)
    ensures HalfReset(x + 1, 0, h, v, hs, vs)
  {
    h, v, hs, vs := h0, v0, hs0, vs0;
    var y := 0;
    while y < 51
      invariant 0 <= y <= 51 && HalfReset(x, y, h, v, hs, vs)
    {
      var p := Cell(x, y);
      ResetStep(h, Parity, Horizontal, x, y, y + 1);
      ResetStep(v, Parity, Vertical, x, y, y + 1);
      ResetStep(hs, Strength, Horizontal, x, y, y + 1);
      ResetStep(vs, Strength, Vertical, x, y, y + 1);
      h := h[p := if y == 0 || y == 50 then 1 else 0];
      v := v[p := if x == 0 || x == 88 then 1 else 0];
      hs := hs[p := 0];
      vs := vs[p := 0];
      y := y + 1;
    }
    ResetColumnDone(h, Parity, Horizontal, x, x + 1);
    ResetColumnDone(v, Parity, Vertical, x, x + 1);
    ResetColumnDone(hs, Strength, Horizontal, x, x + 1);
    ResetColumnDone(vs, Strength, Vertical, x, x + 1);
  }

  /** The interior cells the tile loop has filled before (x, y): columns 1 .. x, then y cells of column x + 1. */
  ghost predicate InteriorPrefix(c: Cell, x: int, y: int)
  {
    (1 <= c.x <= x && 1 <= c.y <= 23) || (c.x == x + 1 && 1 <= c.y <= y)
  }

  /** The tile dictionary t0 with the cells of InteriorPrefix(x, y) filled from the tile block. */
  ghost predicate FilledUpTo(data: seq<byte>, t0: map<Cell, int>, t: map<Cell, int>, x: int, y: int)
  {
    && |data| >= TILE_DATA_END
    && (forall c: Cell :: c in t <==> c in t0 || InteriorPrefix(c, x, y))
    && (forall c: Cell :: InteriorPrefix(c, x, y) && InTileGrid(c) ==> t[c] == TileAt(data, c))
    && (forall c: Cell :: c in t0 && !InteriorPrefix(c, x, y) ==> t[c] == t0[c])
  }

  /** Column x + 1 of the interior (lines 218-224): cell (x + 1, y + 1) takes byte 184 + x + 42y. */
  method FillColumn(data: seq<byte>, ghost t0: map<Cell, int>, x: int, t1: map<Cell, int>) returns (t: map<Cell, int>)
    requires 0 <= x < 42 && FilledUpTo(data, t0, t1, x, 0)
    ensures FilledUpTo(data, t0, t, x + 1, 0)
  {
    t := t1;
    var y := 0;
    while y < 23
      invariant 0 <= y <= 23 && FilledUpTo(data, t0, t, x, y)
    {
      t := t[Cell(x + 1, y + 1) := data[TILE_DATA_START + x + y * 42] as int];
      y := y + 1;
    }
    assert forall c: Cell :: InteriorPrefix(c, x, 23) <==> InteriorPrefix(c, x + 1, 0);
  }

  /** Rows 0 and 24 of the tile grid forced to the full tile 1 (lines 227-231). */
  method FillBorderRows(t0: map<Cell, int>) returns (t: map<Cell, int>)
    ensures forall c: Cell :: c in t <==> c in t0 || (0 <= c.x < 44 && (c.y == 0 || c.y == 24))
    ensures forall c: Cell :: 0 <= c.x < 44 && (c.y == 0 || c.y == 24) ==> t[c] == 1
    ensures forall c: Cell :: c in t0 && !(0 <= c.x < 44 && (c.y == 0 || c.y == 24)) ==> t[c] == t0[c]
  {
    t := t0;
    var x := 0;
    while x < 44
      invariant 0 <= x <= 44
      invariant forall c: Cell :: c in t <==> c in t0 || (0 <= c.x < x && (c.y == 0 || c.y == 24))
      invariant forall c: Cell :: 0 <= c.x < x && (c.y == 0 || c.y == 24) ==> t[c] == 1
      invariant forall c: Cell :: c in t0 && !(0 <= c.x < x && (c.y == 0 || c.y == 24)) ==> t[c] == t0[c]
    {
      t := t[Cell(x, 0) := 1][Cell(x, 24) := 1];
      x := x + 1;
    }
  }

  /** Columns 0 and 43 of the tile grid forced to the full tile 1 (lines 232-236). */
  method FillBorderColumns(t0: map<Cell, int>) returns (t: map<Cell, int>)
    ensures forall c: Cell :: c in t <==> c in t0 || (0 <= c.y < 25 && (c.x == 0 || c.x == 43))
    ensures forall c: Cell :: 0 <= c.y < 25 && (c.x == 0 || c.x == 43) ==> t[c] == 1
    ensures forall c: Cell :: c in t0 && !(0 <= c.y < 25 && (c.x == 0 || c.x == 43)) ==> t[c] == t0[c]
  {
    t := t0;
    var y := 0;
    while y < 25
      invariant 0 <= y <= 25
      invariant forall c: Cell :: c in t <==> c in t0 || (0 <= c.y < y && (c.x == 0 || c.x == 43))
      invariant forall c: Cell :: 0 <= c.y < y && (c.x == 0 || c.x == 43) ==> t[c] == 1
      invariant forall c: Cell :: c in t0 && !(0 <= c.y < y && (c.x == 0 || c.x == 43)) ==> t[c] == t0[c]
    {
      t := t[Cell(0, y) := 1][Cell(43, y) := 1];
      y := y + 1;
    }
  }

  /**
   * One segment pass of loadMapTiles: every half grid position of nonzero
   * strength, visited x-major, appends its edge segment to its bucket's list.
   */
  method EmitPass(axis: Axis, strength: map<Cell, int>, segs0: map<Cell, seq<Segment>>) returns (segs: map<Cell, seq<Segment>>)
    ensures segs == Emitted(axis, strength, HalfCells(), segs0)
  {
    var ps := HalfCells();
    segs := segs0;
    var i := 0;
    while i < |ps|
      invariant 0 <= i <= |ps| && segs == Emitted(axis, strength, ps[..i], segs0)
    {
      var p := ps[i];
      var state := GetOr(strength, p, 0);
      EmittedStep(axis, strength, ps, i, i + 1, segs0, segs, state);
      if state != 0 {
        var b := Bucket(axis, p, state);
        segs := segs[b := GetOr(segs, b, []) + [SegmentAt(axis, p, state)]];
      }
      i := i + 1;
    }
    assert ps[..i] == ps;
  }

  /** The tile dictionary after loading: every cell of the grid with its id, and nothing else. */
  function GridTiles(data: seq<byte>): map<Cell, int>
    requires |data| >= TILE_DATA_END
  {
    map c | c in TileCells() && InTileGrid(c) :: TileAt(data, c)
  }

  /** A dictionary holding every cell of the grid with its id, and nothing else, is GridTiles. */
  lemma GridTilesIs(tiles: map<Cell, int>, data: seq<byte>)
    requires |data| >= TILE_DATA_END
    requires forall c: Cell :: c in tiles <==> InTileGrid(c)
    requires forall c: Cell :: InTileGrid(c) ==> tiles[c] == TileAt(data, c)
    ensures tiles == GridTiles(data)
  {
    TileCellsEnumerate();
  }

  /** The segment dictionary s0 after the tile pass and the two segment passes over the strengths hs and vs. */
  function LoadedSegments(tiles: map<Cell, int>, hs: map<Cell, int>, vs: map<Cell, int>, s0: map<Cell, seq<Segment>>)
    : map<Cell, seq<Segment>>
  {
    Emitted(Vertical, vs, HalfCells(), Emitted(Horizontal, hs, HalfCells(), ShapesPlaced(tiles, tiles.Keys, s0)))
  }

  /** The ninja state in which the tick skips physics, and the dead state. */
  const PHYSICS_OFF_STATE := 9
  const DEAD_STATE := 6

  /**
   * A layer summed from its reset value over all tiles (what load leaves in
   * each of the four half grid dictionaries) has exactly the half grid
   * positions, each holding its reset value bumped by the contributions of
   * the tiles covering it.
   */
  lemma SummedResetAt(layer: Layer, axis: Axis, tiles: map<Cell, int>, p: Cell)
    ensures var m := Summed(layer, axis, tiles, tiles.Keys, ResetLayer(layer, axis));
      && (p in m <==> InHalfGrid(p))
      && (InHalfGrid(p) ==> m[p] == Bump(layer, ResetValue(layer, axis, p), Total(layer, axis, tiles, p)))
  {
    HalfCellsEnumerate();
  }

  /**
   * After load (tiles of the grid, strengths summed from their reset value,
   * segments as TileDataFrom has them), the segment dictionary has exactly
   * the 45 x 26 cells, and each cell lists the shapes of its own tile, then
   * the horizontal pass's segments bucketed there, then the vertical pass's.
   */
  lemma {:induction false} LoadedSegmentsAt(tiles: map<Cell, int>, hs: map<Cell, int>, vs: map<Cell, int>,
                                            segs: map<Cell, seq<Segment>>, b: Cell)
    requires forall c :: c in tiles ==> InTileGrid(c)
    requires hs == Summed(Strength, Horizontal, tiles, tiles.Keys, ResetLayer(Strength, Horizontal))
    requires vs == Summed(Strength, Vertical, tiles, tiles.Keys, ResetLayer(Strength, Vertical))
    requires segs == LoadedSegments(tiles, hs, vs, EmptySegments())
    ensures b in segs <==> InSegmentGrid(b)
    ensures GetOr(segs, b, []) ==
      (if b in tiles then TileShapes(b, tiles[b]) else []) + Owned(Horizontal, hs, HalfCells(), b) + Owned(Vertical, vs, HalfCells(), b)
  {
    HalfCellsEnumerate();
    SegmentCellsEnumerate();
    var placed := ShapesPlaced(tiles, tiles.Keys, EmptySegments());
    var once := Emitted(Horizontal, hs, HalfCells(), placed);
    EmittedMeaning(Horizontal, hs, HalfCells(), placed, b);
    EmittedMeaning(Vertical, vs, HalfCells(), once, b);
    assert GetOr(placed, b, []) == if b in tiles then TileShapes(b, tiles[b]) else [];
    forall q | q in HalfCells()
      ensures GetOr(hs, q, 0) == Total(Strength, Horizontal, tiles, q) && GetOr(vs, q, 0) == Total(Strength, Vertical, tiles, q)
    {
      SummedResetAt(Strength, Horizontal, tiles, q);
      SummedResetAt(Strength, Vertical, tiles, q);
    }
    if Owned(Horizontal, hs, HalfCells(), b) != [] {
      OwnedInRange(Horizontal, tiles, hs, HalfCells(), b);
    }
    if Owned(Vertical, vs, HalfCells(), b) != [] {
      OwnedInRange(Vertical, tiles, vs, HalfCells(), b);
    }
  }

  /**
   * Registering what one record created (the entity e, filed last, and for an
   * exit its door, filed first) extends each type list by the record's TypeStep.
   */
  lemma TypesAfterRecord(d0: map<EntityType, seq<Entity>>, d1: map<EntityType, seq<Entity>>, d2: map<EntityType, seq<Entity>>,
                         r: Record, data: seq<byte>, e: Entity?)
    requires |data| > EXIT_DOOR_COUNT && SwitchBytesPresent(data, r.entityType)
    requires (e != null <==> Created(r, data).Some?) && (e != null ==> e.Info() == Created(r, data).value)
    requires r.entityType != EXIT ==> d1 == d0
    requires r.entityType == EXIT ==> e != null && e.parent != null
    requires r.entityType == EXIT ==> var p: Entity := e.parent; p.Info() == EntityInfo(EXIT, Exit, r.x, r.y) && d1 == Filed(d0, EXIT, p)
    requires e == null ==> d2 == d1
    requires e != null ==> var x: Entity := e; d2 == Filed(d1, x.entityType, x)
    ensures forall t: EntityType :: Infos(GetOr(d2, t, [])) == Infos(GetOr(d0, t, [])) + TypeStep(r, data, t)
  {
    forall t: EntityType
      ensures Infos(GetOr(d2, t, [])) == Infos(GetOr(d0, t, [])) + TypeStep(r, data, t)
    {
      if e != null {
        var x: Entity := e;
        FiledInfos(d1, x.entityType, x, t);
      }
      if r.entityType == EXIT {
        var p: Entity := e.parent;
        FiledInfos(d0, EXIT, p, t);
      }
    }
  }

  /** Registering the created entity e extends the list of its cell, and only that one, by e. */
  lemma CellsAfterRecord(g0: map<Cell, seq<Entity>>, g1: map<Cell, seq<Entity>>, r: Record, data: seq<byte>, e: Entity?)
    requires |data| > EXIT_DOOR_COUNT && SwitchBytesPresent(data, r.entityType)
    requires (e != null <==> Created(r, data).Some?) && (e != null ==> e.Info() == Created(r, data).value)
    requires e == null ==> g1 == g0
    requires e != null ==> var x: Entity := e; g1 == Filed(g0, x.OwnCell(), x)
    ensures forall c: Cell :: Infos(GetOr(g1, c, [])) == Infos(GetOr(g0, c, [])) + CellStep(r, data, c)
  {
    forall c: Cell
      ensures Infos(GetOr(g1, c, [])) == Infos(GetOr(g0, c, [])) + CellStep(r, data, c)
    {
      if e != null {
        var x: Entity := e;
        FiledInfos(g0, x.OwnCell(), x, c);
      }
    }
  }

  /**
   * The record loop of loadMapEntities has decoded the records `done` before
   * byte index, and the dictionaries and the trace have grown by what they
   * created and logged (the entities `made`).
   */
  ghost predicate Loading(data: seq<byte>, index: int, done: seq<Record>, made: seq<Entity>,
                          dic: map<EntityType, seq<Entity>>, grid: map<Cell, seq<Entity>>, tr: seq<Event>,
                          d0: map<EntityType, seq<Entity>>, g0: map<Cell, seq<Entity>>, tr0: seq<Event>)
  {
    && |data| > EXIT_DOOR_COUNT
    && ENTITY_DATA_START <= index && StreamOk(data, ENTITY_DATA_START) && StreamOk(data, index) && AllSwitchBytes(done, data)
    && Records(data, ENTITY_DATA_START) == done + Records(data, index)
    && TypesLoaded(dic, d0, done, data) && CellsLoaded(grid, g0, done, data)
    && g0.Keys <= grid.Keys && d0.Keys <= dic.Keys
    && tr == tr0 + LogPositions(made) && Infos(made) == CreatedAll(done, data)
  }

  /** One record at byte index, registered and logged as m, advances the loop by five bytes. */
  lemma LoadingAdvance(data: seq<byte>, index: int, done: seq<Record>, made: seq<Entity>, m: seq<Entity>,
                       dic: map<EntityType, seq<Entity>>, grid: map<Cell, seq<Entity>>, tr: seq<Event>,
                       dic': map<EntityType, seq<Entity>>, grid': map<Cell, seq<Entity>>, tr': seq<Event>,
                       d0: map<EntityType, seq<Entity>>, g0: map<Cell, seq<Entity>>, tr0: seq<Event>)
    requires Loading(data, index, done, made, dic, grid, tr, d0, g0, tr0) && index < |data| && data[index] != 0
    requires index + 4 < |data| && SwitchBytesPresent(data, data[index] as int)
    requires forall t: EntityType :: Infos(GetOr(dic', t, [])) == Infos(GetOr(dic, t, [])) + TypeStep(RecordAt(data, index), data, t)
    requires forall c: Cell :: Infos(GetOr(grid', c, [])) == Infos(GetOr(grid, c, [])) + CellStep(RecordAt(data, index), data, c)
    requires Infos(m) == OptList(Created(RecordAt(data, index), data))
    requires tr' == tr + LogPositions(m)
    requires grid.Keys <= grid'.Keys && dic.Keys <= dic'.Keys
    ensures Loading(data, index + RECORD_SIZE, done + [RecordAt(data, index)], made + m, dic', grid', tr', d0, g0, tr0)
  {
    var r := RecordAt(data, index);
    RecordsStep(data, index);
    TypesLoadedStep(dic, dic', d0, done, r, data);
    CellsLoadedStep(grid, grid', g0, done, r, data);
    CreatedAllStep(done, r, data);
    InfosAppend(made, m);
    LogPositionsLog(made, m);
    Reassociated(done, [r], Records(data, index + RECORD_SIZE));
    Reassociated(tr0, LogPositions(made), LogPositions(m));
  }

  lemma Reassociated<T>(a: seq<T>, b: seq<T>, c: seq<T>)
    ensures (a + b) + c == a + (b + c)
  {
  }

  /** When the loop stops, it has decoded every record and logged each created entity once, in order. */
  lemma LoadingDone(data: seq<byte>, index: int, done: seq<Record>, made: seq<Entity>,
                    dic: map<EntityType, seq<Entity>>, grid: map<Cell, seq<Entity>>, tr: seq<Event>,
                    d0: map<EntityType, seq<Entity>>, g0: map<Cell, seq<Entity>>, tr0: seq<Event>)
    requires Loading(data, index, done, made, dic, grid, tr, d0, g0, tr0) && (index >= |data| || data[index] == 0)
    ensures done == Records(data, ENTITY_DATA_START)
    ensures |tr0| <= |tr| && tr[..|tr0|] == tr0
    ensures LogsOf(tr[|tr0|..], CreatedAll(done, data))
  {
    assert tr[|tr0|..] == LogPositions(made);
    LogPositionsLog(made, []);
  }

  /**
   * The inner gather loop of tick over one type list: what was kept from the
   * lists before, followed by the active movable and active thinkable
   * entities of this list.
   */
  method GatherList(list: seq<Entity>, ghost before: seq<Entity>, movable0: seq<Entity>, thinkable0: seq<Entity>)
    returns (movable: seq<Entity>, thinkable: seq<Entity>)
    requires movable0 == ActiveMovable(before) && thinkable0 == ActiveThinkable(before)
    ensures movable == ActiveMovable(before + list)
    ensures thinkable == ActiveThinkable(before + list)
  {
    movable, thinkable := movable0, thinkable0;
    var i := 0;
    assert before + list[..i] == before;
    while i < |list|
      invariant 0 <= i <= |list|
      invariant movable == ActiveMovable(before + list[..i])
      invariant thinkable == ActiveThinkable(before + list[..i])
    {
      var e := list[i];
      PrefixSnoc(before, list, i);
      ActiveSnoc(before + list[..i], e);
      if e.active {
        if e.movable {
          movable := movable + [e];
        }
        if e.thinkable {
          thinkable := thinkable + [e];
        }
      }
      i := i + 1;
    }
    assert list[..i] == list;
  }

  /**
   * The gather loop of tick (lines 387-407): the registry walked in key
   * order, keeping the active movable and the active thinkable entities.
   */
  method Gather(dic: map<EntityType, seq<Entity>>) returns (movable: seq<Entity>, thinkable: seq<Entity>)
    ensures movable == ActiveMovable(RegistryOrder(dic))
    ensures thinkable == ActiveThinkable(RegistryOrder(dic))
  {
    movable, thinkable := [], [];
    var t := 1;
    while t <= 28
      invariant 1 <= t <= 29
      invariant movable == ActiveMovable(ListsUpTo(dic, t - 1))
      invariant thinkable == ActiveThinkable(ListsUpTo(dic, t - 1))
    {
      var list := if t in dic then dic[t] else [];
      assert ListsUpTo(dic, t) == ListsUpTo(dic, t - 1) + list;
      movable, thinkable := GatherList(list, ListsUpTo(dic, t - 1), movable, thinkable);
      t := t + 1;
    }
  }

  /** The loop of tick calling move() on each gathered movable entity (lines 410-413). */
  method MoveAll(movable: seq<Entity>, tr0: seq<Event>) returns (tr: seq<Event>)
    ensures tr == tr0 + Moves(movable)
  {
    tr := tr0;
    var i := 0;
    while i < |movable|
      invariant 0 <= i <= |movable| && tr == tr0 + Moves(movable[..i])
    {
      assert Moves(movable[..i + 1]) == Moves(movable[..i]) + [Move(movable[i])];
      tr := tr + [Move(movable[i])];
      i := i + 1;
    }
    assert movable[..i] == movable;
  }

  /** The loop of tick calling think() on each gathered thinkable entity (lines 416-419). */
  method ThinkAll(thinkable: seq<Entity>, tr0: seq<Event>) returns (tr: seq<Event>)
    ensures tr == tr0 + Thinks(thinkable)
  {
    tr := tr0;
    var i := 0;
    while i < |thinkable|
      invariant 0 <= i <= |thinkable| && tr == tr0 + Thinks(thinkable[..i])
    {
      assert Thinks(thinkable[..i + 1]) == Thinks(thinkable[..i]) + [Think(thinkable[i])];
      tr := tr + [Think(thinkable[i])];
      i := i + 1;
    }
    assert thinkable[..i] == thinkable;
  }

  /** The loop of tick calling logPosition() on each gathered movable entity (lines 463-466). */
  method LogAll(movable: seq<Entity>, tr0: seq<Event>) returns (tr: seq<Event>)
    ensures tr == tr0 + LogPositions(movable)
  {
    tr := tr0;
    var i := 0;
    while i < |movable|
      invariant 0 <= i <= |movable| && tr == tr0 + LogPositions(movable[..i])
    {
      assert LogPositions(movable[..i + 1]) == LogPositions(movable[..i]) + [LogPosition(movable[i])];
      tr := tr + [LogPosition(movable[i])];
      i := i + 1;
    }
    assert movable[..i] == movable;
  }

  /** The four collision rounds of the physics block, objects before tiles (lines 431-435). */
  method CollisionRounds(tr0: seq<Event>) returns (tr: seq<Event>)
    ensures tr == tr0 + CollisionPasses(4)
  {
    tr := tr0;
    var i := 0;
    while i < 4
      invariant 0 <= i <= 4 && tr == tr0 + CollisionPasses(i)
    {
      tr := tr + [CollideVsObjects, CollideVsTiles];
      i := i + 1;
    }
  }

  /** The setActive calls of the collision hooks, made in order. */
  method ApplyFlags(cs: seq<FlagChange>)
    modifies Targets(cs)`active
    ensures forall x :: x in Targets(cs) ==> x.active == FlagAfter(cs, x, old(x.active))
  {
    var i := 0;
    while i < |cs|
      invariant 0 <= i <= |cs|
      invariant forall x :: x in Targets(cs) ==> x.active == FlagAfter(cs[..i], x, old(x.active))
    {
      assert cs[..i + 1][..i] == cs[..i];
      assert cs[i].target in Targets(cs);
      cs[i].target.active := cs[i].active;
      i := i + 1;
    }
    assert cs[..i] == cs;
  }

  /** The three stages of tick together make up the tick's calls. */
  lemma TickEventsJoin(tr0: seq<Event>, a: seq<Event>, b: seq<Event>, c: seq<Event>,
                       movable: seq<Entity>, thinkable: seq<Entity>, physics: bool, deathPin: bool,
                       enableAnim: bool, logData: bool, hasNinja: bool, frame: int)
    requires a == tr0 + Moves(movable) + Thinks(thinkable)
    requires b == a + (if physics then PhysicsSteps(enableAnim) else [])
    requires c == b + AfterPhysics(movable, deathPin, logData, hasNinja, frame)
    ensures c == tr0 + TickEvents(movable, thinkable, physics, deathPin, enableAnim, logData, hasNinja, frame)
  {
    var p := if physics then PhysicsSteps(enableAnim) else [];
    var q := AfterPhysics(movable, deathPin, logData, hasNinja, frame);
    assert NinjaAndLogging(movable, physics, deathPin, enableAnim, logData, hasNinja, frame) == p + q;
    Regrouped(tr0, Moves(movable), Thinks(thinkable), p, q);
  }

  lemma PrefixSnoc<T>(a: seq<T>, s: seq<T>, i: int)
    requires 0 <= i < |s|
    ensures a + s[..i + 1] == (a + s[..i]) + [s[i]]
  {
    assert s[..i + 1] == s[..i] + [s[i]];
  }

  lemma Regrouped<T>(s: seq<T>, w: seq<T>, x: seq<T>, y: seq<T>, z: seq<T>)
    ensures s + w + x + y + z == s + (w + x + (y + z))
  {
  }

  /**
   * The end of tick (lines 447-473): the death pin of a dead ninja, the
   * ninja's log and every gathered movable entity's logPosition when logging
   * is on, and the cache clear on every hundredth frame.
   */
  method AfterPhysicsCalls(movable: seq<Entity>, deathPin: bool, logData: bool, hasNinja: bool, frame: int, tr0: seq<Event>)
    returns (tr: seq<Event>)
    ensures tr == tr0 + AfterPhysics(movable, deathPin, logData, hasNinja, frame)
  {
    tr := tr0;
    if deathPin {
      tr := tr + DeathPin();
    }
    if logData {
      if hasNinja {
        tr := tr + [NinjaLog(frame)];
      }
      tr := LogAll(movable, tr);
    }
    if frame % 100 == 0 {
      tr := tr + [ClearCaches];
    }
  }

  /**
   * The tile dictionaries as load leaves them for the map bytes data: the
   * tiles of the grid, every layer summed from its reset value and the
   * segments of the tiles followed by those of both strength passes.
   */
  ghost predicate TileDataFrom(data: seq<byte>, tiles: map<Cell, int>, h: map<Cell, int>, v: map<Cell, int>,
                               hs: map<Cell, int>, vs: map<Cell, int>, segs: map<Cell, seq<Segment>>)
  {
    && HasHeader(data)
    && (tiles, h, v, hs, vs, segs) ==
       (GridTiles(data),
        Summed(Parity, Horizontal, tiles, tiles.Keys, ResetLayer(Parity, Horizontal)),
        Summed(Parity, Vertical, tiles, tiles.Keys, ResetLayer(Parity, Vertical)),
        Summed(Strength, Horizontal, tiles, tiles.Keys, ResetLayer(Strength, Horizontal)),
        Summed(Strength, Vertical, tiles, tiles.Keys, ResetLayer(Strength, Vertical)),
        LoadedSegments(tiles, hs, vs, EmptySegments()))
  }

  /**
   * The entity registry as reset leaves it for the map bytes data: every
   * type list and cell list holds exactly what the records of the map
   * pushed to it, and the calls tr0 made before are followed by one
   * logPosition per created entity.
   */
  ghost predicate EntitiesFrom(data: seq<byte>, dic: map<EntityType, seq<Entity>>, grid: map<Cell, seq<Entity>>,
                               tr: seq<Event>, tr0: seq<Event>)
  {
    && HasHeader(data) && StreamOk(data, ENTITY_DATA_START) && AllSwitchBytes(Records(data, ENTITY_DATA_START), data)
    && (forall t: EntityType :: t in dic && Infos(dic[t]) == TypePushes(Records(data, ENTITY_DATA_START), data, t))
    && (forall c: Cell :: InTileGrid(c) ==> c in grid)
    && (forall c: Cell :: Infos(GetOr(grid, c, [])) == CellPushes(Records(data, ENTITY_DATA_START), data, c))
    && |tr0| <= |tr| && tr[..|tr0|] == tr0
    && LogsOf(tr[|tr0|..], CreatedAll(Records(data, ENTITY_DATA_START), data))
    && TypesConsistent(dic) && CellsConsistent(grid)
  }

  /** Records loaded onto the registry reset leaves (empty lists) give the registry of the map alone. */
  lemma LoadedFromReset(data: seq<byte>, dic: map<EntityType, seq<Entity>>, grid: map<Cell, seq<Entity>>, tr: seq<Event>,
                        tr0: seq<Event>, d0: map<EntityType, seq<Entity>>, g0: map<Cell, seq<Entity>>)
    requires HasHeader(data) && StreamOk(data, ENTITY_DATA_START) && AllSwitchBytes(Records(data, ENTITY_DATA_START), data)
    requires forall t: EntityType :: t in d0 && d0[t] == []
    requires forall c: Cell :: c in g0 <==> InTileGrid(c)
    requires forall c: Cell :: c in g0 ==> g0[c] == []
    requires TypesLoaded(dic, d0, Records(data, ENTITY_DATA_START), data)
    requires CellsLoaded(grid, g0, Records(data, ENTITY_DATA_START), data)
    requires g0.Keys <= grid.Keys && d0.Keys <= dic.Keys
    requires |tr0| <= |tr| && tr[..|tr0|] == tr0
    requires LogsOf(tr[|tr0|..], CreatedAll(Records(data, ENTITY_DATA_START), data))
    requires TypesConsistent(dic) && CellsConsistent(grid)
    ensures EntitiesFrom(data, dic, grid, tr, tr0)
  {
    var rs := Records(data, ENTITY_DATA_START);
    forall t: EntityType
      ensures t in dic && Infos(dic[t]) == TypePushes(rs, data, t)
    {
      assert t in d0 && Infos(GetOr(d0, t, [])) == [];
    }
    forall c: Cell
      ensures Infos(GetOr(grid, c, [])) == CellPushes(rs, data, c)
    {
      assert Infos(GetOr(g0, c, [])) == [];
    }
  }

  class Simulation {
    const enableAnim: bool
    const logData: bool
    /** Per-type class constants from headers outside this model. */
    const classes: EntityType -> EntityClass
    /** Ninja::RADIUS, from a header outside this model. */
    const ninjaRadius: real

    var frame: int
    var mapData: seq<byte>
    var tileDic: map<Cell, int>
    var horGridEdge: map<Cell, int>
    var verGridEdge: map<Cell, int>
    var horSegment: map<Cell, int>
    var verSegment: map<Cell, int>
    var segmentDic: map<Cell, seq<Segment>>
    var entityDic: map<EntityType, seq<Entity>>
    var gridEntity: map<Cell, seq<Entity>>
    var ninja: Ninja?
    var collisionLog: seq<Entity>
    /** Calls into code outside this model (entity and ninja steps, logging, cache clears), in order. */
    var trace: seq<Event>

    /** The parity dictionary of an axis. */
    function GridEdge(axis: Axis): map<Cell, int>
      reads this
    {
      match axis case Horizontal => horGridEdge case Vertical => verGridEdge
    }

    /** The strength dictionary of an axis. */
    function SegmentStrength(axis: Axis): map<Cell, int>
      reads this
    {
      match axis case Horizontal => horSegment case Vertical => verSegment
    }

    /** The four half grid dictionaries hold exactly the 89 x 51 positions, parity as bits. */
    ghost predicate HalfGridsShaped()
      reads this`horGridEdge, this`verGridEdge, this`horSegment, this`verSegment
    {
      && (forall p: Cell :: p in horGridEdge <==> InHalfGrid(p))
      && (forall p: Cell :: p in verGridEdge <==> InHalfGrid(p))
      && (forall p: Cell :: p in horSegment <==> InHalfGrid(p))
      && (forall p: Cell :: p in verSegment <==> InHalfGrid(p))
      && Bits(horGridEdge) && Bits(verGridEdge)
    }

    /** Every type list holds only entities of its type, and every cell list only entities of its cell. */
    ghost predicate RegistryConsistent()
      reads this
    {
      TypesConsistent(entityDic) && CellsConsistent(gridEntity)
    }

    /** What holds between public calls: tiles only on the grid and a consistent registry; every public mutator keeps it. */
    ghost predicate Valid()
      reads this
    {
      && (forall c: Cell :: c in tileDic ==> InTileGrid(c))
      && RegistryConsistent()
    }

    constructor (enableAnim: bool, logData: bool, classes: EntityType -> EntityClass, ninjaRadius: real)
      ensures Valid()
      ensures this.enableAnim == enableAnim && this.logData == logData
      ensures this.classes == classes && this.ninjaRadius == ninjaRadius
      ensures frame == 0 && ninja == null && mapData == [] && trace == [] && collisionLog == []
      ensures tileDic == map[] && segmentDic == map[] && entityDic == map[] && gridEntity == map[]
      ensures horGridEdge == map[] && verGridEdge == map[] && horSegment == map[] && verSegment == map[]
    {
      this.enableAnim := enableAnim;
      this.logData := logData;
      this.classes := classes;
      this.ninjaRadius := ninjaRadius;
      frame := 0;
      mapData := [];
      tileDic := map[];
      horGridEdge, verGridEdge, horSegment, verSegment := map[], map[], map[], map[];
      segmentDic := map[];
      entityDic := map[];
      gridEntity := map[];
      ninja := null;
      collisionLog := [];
      trace := [];
    }

    // ---- Tile data ----

    /** Empty segment lists for the 45 x 26 cells; parity 1 on the border lines and 0 elsewhere; strengths 0. */
    method ResetMapTileData()
      modifies this`segmentDic, this`horGridEdge, this`verGridEdge, this`horSegment, this`verSegment
      ensures forall c: Cell :: c in segmentDic <==> InSegmentGrid(c)
      ensures forall c: Cell :: c in segmentDic ==> segmentDic[c] == []
      ensures HalfGridsShaped()
      ensures forall p: Cell :: p in horGridEdge ==> horGridEdge[p] == BorderParity(Horizontal, p)
      ensures forall p: Cell :: p in verGridEdge ==> verGridEdge[p] == BorderParity(Vertical, p)
      ensures forall p: Cell :: p in horSegment ==> horSegment[p] == 0
      ensures forall p: Cell :: p in verSegment ==> verSegment[p] == 0
    {
      ResetSegmentCells();
      ResetHalfGrids();
    }

    method ResetSegmentCells()
      modifies this`segmentDic
      ensures forall c: Cell :: c in segmentDic <==> InSegmentGrid(c)
      ensures forall c: Cell :: c in segmentDic ==> segmentDic[c] == []
    {
      segmentDic := map[];
      for x := 0 to 45
        invariant forall c: Cell :: c in segmentDic <==> 0 <= c.x < x && 0 <= c.y < 26
        invariant forall c: Cell :: c in segmentDic ==> segmentDic[c] == []
      {
        for y := 0 to 26
          invariant forall c: Cell :: c in segmentDic <==> (0 <= c.x < x && 0 <= c.y < 26) || (c.x == x && 0 <= c.y < y)
          invariant forall c: Cell :: c in segmentDic ==> segmentDic[c] == []
        {
          segmentDic := segmentDic[Cell(x, y) := []];
        }
      }
    }

    method ResetHalfGrids()
      modifies this`horGridEdge, this`verGridEdge, this`horSegment, this`verSegment
      ensures HalfGridsShaped()
      ensures forall p: Cell :: p in horGridEdge ==> horGridEdge[p] == BorderParity(Horizontal, p)
      ensures forall p: Cell :: p in verGridEdge ==> verGridEdge[p] == BorderParity(Vertical, p)
      ensures forall p: Cell :: p in horSegment ==> horSegment[p] == 0
      ensures forall p: Cell :: p in verSegment ==> verSegment[p] == 0
    {
      horGridEdge, verGridEdge, horSegment, verSegment := map[], map[], map[], map[];
      var x := 0;
      while x < 89
        invariant 0 <= x <= 89 && HalfReset(x, 0, horGridEdge, verGridEdge, horSegment, verSegment)
      {
        horGridEdge, verGridEdge, horSegment, verSegment := ResetColumn(x, horGridEdge, verGridEdge, horSegment, verSegment);
        x := x + 1;
      }
      assert forall p: Cell :: HalfPrefix(p, 89, 0) <==> InHalfGrid(p);
    }

    /** The first part of loadMapTiles: interior tiles from the tile block, then the border forced to 1. */
    method FillTiles()
      requires |mapData| >= TILE_DATA_END && forall c: Cell :: c in tileDic ==> InTileGrid(c)
      modifies this`tileDic
      ensures tileDic == GridTiles(mapData) && forall c: Cell :: c in tileDic <==> InTileGrid(c)
    {
      FillInterior();
      FillBorder();
      GridTilesIs(tileDic, mapData);
    }

    /** Interior cell (x + 1, y + 1) takes byte 184 + x + 42y. */
    method FillInterior()
      requires |mapData| >= TILE_DATA_END
      modifies this`tileDic
      ensures forall c: Cell :: c in tileDic <==> c in old(tileDic) || (InTileGrid(c) && !IsBorder(c))
      ensures forall c: Cell :: InTileGrid(c) && !IsBorder(c) ==> tileDic[c] == TileAt(mapData, c)
      ensures forall c: Cell :: c in old(tileDic) && !(InTileGrid(c) && !IsBorder(c)) ==> tileDic[c] == old(tileDic)[c]
    {
      ghost var t0 := tileDic;
      var x := 0;
      while x < 42
        invariant 0 <= x <= 42 && FilledUpTo(mapData, t0, tileDic, x, 0)
      {
        tileDic := FillColumn(mapData, t0, x, tileDic);
        x := x + 1;
      }
      assert forall c: Cell :: InteriorPrefix(c, 42, 0) <==> InTileGrid(c) && !IsBorder(c);
    }

    /** Rows 0 and 24, then columns 0 and 43, are forced to the full tile 1. */
    method FillBorder()
      modifies this`tileDic
      ensures forall c: Cell :: c in tileDic <==> c in old(tileDic) || (InTileGrid(c) && IsBorder(c))
      ensures forall c: Cell :: InTileGrid(c) && IsBorder(c) ==> tileDic[c] == 1
      ensures forall c: Cell :: c in old(tileDic) && !(InTileGrid(c) && IsBorder(c)) ==> tileDic[c] == old(tileDic)[c]
    {
      var rows := FillBorderRows(tileDic);
      tileDic := FillBorderColumns(rows);
    }

    /**
     * The tile dictionary loop of loadMapTiles (lines 239-295), visiting the
     * cells in `order`: every tile's contribution summed into the four half
     * grid dictionaries and every tile's shapes pushed onto its own list.
     * The sums do not depend on the order (SummedStep), and each tile writes
     * only its own list, so any visiting order gives the same state.
     */
    method ProcessTiles(order: seq<Cell>)
      requires Distinct(order) && (forall c :: c in order <==> c in tileDic)
      requires (forall c :: c in tileDic ==> InTileGrid(c)) && HalfGridsShaped()
      modifies this`horGridEdge, this`verGridEdge, this`horSegment, this`verSegment, this`segmentDic
      ensures horGridEdge == Summed(Parity, Horizontal, tileDic, tileDic.Keys, old(horGridEdge))
      ensures verGridEdge == Summed(Parity, Vertical, tileDic, tileDic.Keys, old(verGridEdge))
      ensures horSegment == Summed(Strength, Horizontal, tileDic, tileDic.Keys, old(horSegment))
      ensures verSegment == Summed(Strength, Vertical, tileDic, tileDic.Keys, old(verSegment))
      ensures segmentDic == ShapesPlaced(tileDic, tileDic.Keys, old(segmentDic))
      ensures HalfGridsShaped()
    {
      ghost var h0, v0, hs0, vs0, s0 := horGridEdge, verGridEdge, horSegment, verSegment, segmentDic;
      var i := 0;
      while i < |order|
        invariant 0 <= i <= |order| && HalfGridsShaped()
        invariant TilesVisited(order[..i], h0, v0, hs0, vs0, s0)
      {
        var c := order[i];
        VisitedStep(Parity, Horizontal, tileDic, order, i, i + 1, h0, horGridEdge);
        VisitedStep(Parity, Vertical, tileDic, order, i, i + 1, v0, verGridEdge);
        VisitedStep(Strength, Horizontal, tileDic, order, i, i + 1, hs0, horSegment);
        VisitedStep(Strength, Vertical, tileDic, order, i, i + 1, vs0, verSegment);
        PlacedVisitedStep(tileDic, order, i, i + 1, s0, segmentDic);
        AccumulateTile(c, tileDic[c]);
        i := i + 1;
      }
      assert order[..i] == order;
      VisitedAll(order, tileDic, h0, v0, hs0, vs0, s0);
    }

    /** The half grid dictionaries and segment lists after visiting the tiles of `order`. */
    ghost predicate TilesVisited(order: seq<Cell>, h0: map<Cell, int>, v0: map<Cell, int>, hs0: map<Cell, int>, vs0: map<Cell, int>,
                                 s0: map<Cell, seq<Segment>>)
      reads this
    {
      && horGridEdge == Visited(Parity, Horizontal, tileDic, order, h0)
      && verGridEdge == Visited(Parity, Vertical, tileDic, order, v0)
      && horSegment == Visited(Strength, Horizontal, tileDic, order, hs0)
      && verSegment == Visited(Strength, Vertical, tileDic, order, vs0)
      && segmentDic == PlacedVisited(tileDic, order, s0)
    }

    /** Once an order listing every tile once is visited, every tile is summed in. */
    lemma VisitedAll(order: seq<Cell>, tiles: map<Cell, int>, h0: map<Cell, int>, v0: map<Cell, int>, hs0: map<Cell, int>,
                     vs0: map<Cell, int>, s0: map<Cell, seq<Segment>>)
      requires tiles == tileDic && Distinct(order) && (forall c :: c in order <==> c in tiles)
      requires Bits(h0) && Bits(v0) && TilesVisited(order, h0, v0, hs0, vs0, s0)
      ensures TilesSummed(tiles.Keys, h0, v0, hs0, vs0, s0)
    {
      VisitedMeaning(Parity, Horizontal, tiles, order, h0);
      VisitedMeaning(Parity, Vertical, tiles, order, v0);
      VisitedMeaning(Strength, Horizontal, tiles, order, hs0);
      VisitedMeaning(Strength, Vertical, tiles, order, vs0);
      PlacedVisitedMeaning(tiles, order, s0);
      assert Elements(order) == tiles.Keys;
    }

    /**
     * loadMapTiles (lines 212-338): the tile dictionary filled from the map
     * data, every tile summed into the half grids and its own shapes pushed,
     * in `order`; then the horizontal and the vertical segment passes.
     */
    method LoadMapTiles(order: seq<Cell>)
      requires |mapData| >= TILE_DATA_END && (forall c: Cell :: c in tileDic ==> InTileGrid(c)) && HalfGridsShaped()
      requires Distinct(order) && (forall c :: c in order <==> InTileGrid(c))
      modifies this`tileDic, this`horGridEdge, this`verGridEdge, this`horSegment, this`verSegment, this`segmentDic
      ensures tileDic == GridTiles(mapData)
      ensures horGridEdge == Summed(Parity, Horizontal, tileDic, tileDic.Keys, old(horGridEdge))
      ensures verGridEdge == Summed(Parity, Vertical, tileDic, tileDic.Keys, old(verGridEdge))
      ensures horSegment == Summed(Strength, Horizontal, tileDic, tileDic.Keys, old(horSegment))
      ensures verSegment == Summed(Strength, Vertical, tileDic, tileDic.Keys, old(verSegment))
      ensures segmentDic == LoadedSegments(tileDic, horSegment, verSegment, old(segmentDic))
    {
      FillTiles();
      SumAndEmit(order);
    }

    /** The tile pass over `order` then the two segment passes, on the tiles already in place. */
    method SumAndEmit(order: seq<Cell>)
      requires (forall c: Cell :: c in tileDic ==> InTileGrid(c)) && HalfGridsShaped()
      requires Distinct(order) && (forall c :: c in order <==> c in tileDic)
      modifies this`horGridEdge, this`verGridEdge, this`horSegment, this`verSegment, this`segmentDic
      ensures (horGridEdge, verGridEdge, horSegment, verSegment, segmentDic) ==
        (Summed(Parity, Horizontal, tileDic, tileDic.Keys, old(horGridEdge)),
         Summed(Parity, Vertical, tileDic, tileDic.Keys, old(verGridEdge)),
         Summed(Strength, Horizontal, tileDic, tileDic.Keys, old(horSegment)),
         Summed(Strength, Vertical, tileDic, tileDic.Keys, old(verSegment)),
         LoadedSegments(tileDic, horSegment, verSegment, old(segmentDic)))
    {
      ProcessTiles(order);
      var hor := EmitPass(Horizontal, horSegment, segmentDic);
      segmentDic := EmitPass(Vertical, verSegment, hor);
    }

    /**
     * The four half grid dictionaries hold the starting maps with the
     * contributions of the tiles `done` summed in, and the segment lists the
     * starting lists with those tiles' shapes.
     */
    ghost predicate TilesSummed(done: set<Cell>, h0: map<Cell, int>, v0: map<Cell, int>, hs0: map<Cell, int>, vs0: map<Cell, int>,
                                s0: map<Cell, seq<Segment>>)
      reads this
    {
      && horGridEdge == Summed(Parity, Horizontal, tileDic, done, h0)
      && verGridEdge == Summed(Parity, Vertical, tileDic, done, v0)
      && horSegment == Summed(Strength, Horizontal, tileDic, done, hs0)
      && verSegment == Summed(Strength, Vertical, tileDic, done, vs0)
      && segmentDic == ShapesPlaced(tileDic, done, s0)
    }

    method AccumulateTile(c: Cell, id: int)
      requires InTileGrid(c) && HalfGridsShaped()
      modifies this`horGridEdge, this`verGridEdge, this`horSegment, this`verSegment, this`segmentDic
      ensures horGridEdge == WithContribution(Parity, Horizontal, id, c, old(horGridEdge))
      ensures verGridEdge == WithContribution(Parity, Vertical, id, c, old(verGridEdge))
      ensures horSegment == WithContribution(Strength, Horizontal, id, c, old(horSegment))
      ensures verSegment == WithContribution(Strength, Vertical, id, c, old(verSegment))
      ensures segmentDic == TilePushed(old(segmentDic), c, id)
      ensures HalfGridsShaped()
    {
      ShapedTouches(c);
      var h := TileRows(Parity, Horizontal, c, id, horGridEdge);
      var hs := TileRows(Strength, Horizontal, c, id, horSegment);
      var v := TileRows(Parity, Vertical, c, id, verGridEdge);
      var vs := TileRows(Strength, Vertical, c, id, verSegment);
      horGridEdge, horSegment, verGridEdge, verSegment := h, hs, v, vs;
      AddTileShapes(c, id);
    }

    /** Every position a tile of the grid writes to is already in the four half grid dictionaries. */
    lemma ShapedTouches(c: Cell)
      requires InTileGrid(c) && HalfGridsShaped()
      ensures Touches(Horizontal, c, horGridEdge) && Touches(Vertical, c, verGridEdge)
      ensures Touches(Horizontal, c, horSegment) && Touches(Vertical, c, verSegment)
    {
      TouchesHalfGrid(Horizontal, c, horGridEdge);
      TouchesHalfGrid(Vertical, c, verGridEdge);
      TouchesHalfGrid(Horizontal, c, horSegment);
      TouchesHalfGrid(Vertical, c, verSegment);
    }

    /** Tile c's sloped segment, then its arc, pushed onto the list of cell c. */
    method AddTileShapes(c: Cell, id: int)
      modifies this`segmentDic
      ensures segmentDic == TilePushed(old(segmentDic), c, id)
    {
      ShapeTablesDisjoint(id);
      TileShapesExact(c, id);
      var diag := DiagRow(id);
      if diag.Some? {
        segmentDic := segmentDic[c := GetOr(segmentDic, c, []) + [Linear(Offset(diag.value.0, c), Offset(diag.value.1, c))]];
      }
      var arc := CircularRow(id);
      if arc.Some? {
        segmentDic := segmentDic[c := GetOr(segmentDic, c, []) + [Circular(Offset(arc.value.center, c), arc.value.quadrant, arc.value.convex)]];
      }
    }
  
    // ---- Entity data ----

    /** resetMapEntityData (lines 144-163): an empty list for every tile cell and for every type 1-28. */
    method ResetMapEntityData()
      modifies this`gridEntity, this`entityDic
      ensures forall c: Cell :: c in gridEntity <==> InTileGrid(c)
      ensures forall c: Cell :: c in gridEntity ==> gridEntity[c] == []
      ensures forall t: EntityType :: t in entityDic && entityDic[t] == []
      ensures RegistryConsistent()
    {
      gridEntity, entityDic := map[], map[];
      for x := 0 to 44
        invariant entityDic == map[]
        invariant forall c: Cell :: c in gridEntity <==> 0 <= c.x < x && 0 <= c.y < 25
        invariant forall c: Cell :: c in gridEntity ==> gridEntity[c] == []
      {
        for y := 0 to 25
          invariant entityDic == map[]
          invariant forall c: Cell :: c in gridEntity <==> (0 <= c.x < x && 0 <= c.y < 25) || (c.x == x && 0 <= c.y < y)
          invariant forall c: Cell :: c in gridEntity ==> gridEntity[c] == []
        {
          gridEntity := gridEntity[Cell(x, y) := []];
        }
      }
      for i := 1 to 29
        invariant forall t: EntityType :: t in entityDic <==> t < i
        invariant forall t :: t in entityDic ==> entityDic[t] == []
        invariant forall c: Cell :: c in gridEntity <==> InTileGrid(c)
        invariant forall c: Cell :: c in gridEntity ==> gridEntity[c] == []
      {
        entityDic := entityDic[i := []];
      }
    }

    /** addEntity (lines 526-536): the entity pushed onto its type list and its cell list; null is ignored. */
    method AddEntity(e: Entity?)
      modifies this`entityDic, this`gridEntity
      ensures e == null ==> entityDic == old(entityDic) && gridEntity == old(gridEntity)
      ensures e != null ==> var x: Entity := e;
        entityDic == Filed(old(entityDic), x.entityType, x) && gridEntity == Filed(old(gridEntity), x.OwnCell(), x)
      ensures old(RegistryConsistent()) ==> RegistryConsistent()
      ensures old(Valid()) ==> Valid()
    {
      if e == null {
        return;
      }
      var ent: Entity := e;
      if RegistryConsistent() {
        TypesStayConsistent(entityDic, ent);
        CellsStayConsistent(gridEntity, ent);
      }
      var t := ent.entityType;
      var cell := ent.OwnCell();
      entityDic := entityDic[t := GetOr(entityDic, t, []) + [ent]];
      gridEntity := gridEntity[cell := GetOr(gridEntity, cell, []) + [ent]];
    }

    /** removeEntity (lines 538-553): every occurrence erased from its type list and its cell list; null is ignored. */
    method RemoveEntity(e: Entity?)
      modifies this`entityDic, this`gridEntity
      ensures e == null ==> entityDic == old(entityDic) && gridEntity == old(gridEntity)
      ensures e != null ==> var x: Entity := e;
        entityDic == Unfiled(old(entityDic), x.entityType, x) && gridEntity == Unfiled(old(gridEntity), x.OwnCell(), x)
      ensures old(RegistryConsistent()) ==> RegistryConsistent()
      ensures old(Valid()) ==> Valid()
    {
      if e == null {
        return;
      }
      var ent: Entity := e;
      if RegistryConsistent() {
        TypesStayConsistent(entityDic, ent);
        CellsStayConsistent(gridEntity, ent);
      }
      var t := ent.entityType;
      var cell := ent.OwnCell();
      entityDic := entityDic[t := RemoveAll(GetOr(entityDic, t, []), ent)];
      gridEntity := gridEntity[cell := RemoveAll(GetOr(gridEntity, cell, []), ent)];
    }

    /** An entity as its class's constructor leaves it. */
    ghost predicate Constructed(e: Entity, parent: Entity?)
      reads e
    {
      && e.radius == classes(e.entityType).radius && e.movable == classes(e.entityType).movable
      && e.thinkable == classes(e.entityType).thinkable
      && e.parent == parent && e.active && e.stateChanges == [] && e.collisionsLogged == 0
    }

    /**
     * createEntity (lines 476-524): the entity of the record's type, or null;
     * an exit record files its Exit in type list 3 and yields the switch.
     */
    method CreateEntity(entityType: int, xpos: real, ypos: real, orientation: int, mode: int) returns (e: Entity?)
      requires |mapData| > EXIT_DOOR_COUNT && SwitchBytesPresent(mapData, entityType)
      modifies this`entityDic
      ensures var o := Created(Record(entityType, xpos, ypos, orientation, mode), mapData);
        && (e != null <==> o.Some?)
        && (e != null ==> fresh(e) && e.Info() == o.value)
      ensures entityType != EXIT ==> entityDic == old(entityDic) && (e != null ==> Constructed(e, null))
      ensures entityType == EXIT ==>
        && e != null && e.parent != null && fresh(e.parent) && Constructed(e, e.parent) && Constructed(e.parent, null)
        && e.parent.Info() == EntityInfo(EXIT, Exit, xpos, ypos)
        && entityDic == Filed(old(entityDic), EXIT, e.parent)
      ensures old(TypesConsistent(entityDic)) ==> TypesConsistent(entityDic)
    {
      e := null;
      if entityType == 1 {
        e := new Entity(TOGGLE_MINE, ToggleMine(0), xpos, ypos, classes(TOGGLE_MINE), null);
      } else if entityType == 2 {
        e := new Entity(GOLD, Gold, xpos, ypos, classes(GOLD), null);
      } else if entityType == 3 {
        var exitDoor := new Entity(EXIT, Exit, xpos, ypos, classes(EXIT), null);
        if TypesConsistent(entityDic) {
          TypesStayConsistent(entityDic, exitDoor);
        }
        entityDic := entityDic[EXIT := GetOr(entityDic, EXIT, []) + [exitDoor]];
        var exitDoorCount := mapData[EXIT_DOOR_COUNT] as int;
        var switchX := mapData[ENTITY_DATA_START + RECORD_SIZE * exitDoorCount + 1] as real;
        var switchY := mapData[ENTITY_DATA_START + RECORD_SIZE * exitDoorCount + 2] as real;
        e := new Entity(EXIT_SWITCH, ExitSwitch, switchX, switchY, classes(EXIT_SWITCH), exitDoor);
      } else if entityType == 5 {
        e := new Entity(DOOR_REGULAR, DoorRegular(orientation, xpos, ypos), xpos, ypos, classes(DOOR_REGULAR), null);
      } else if entityType == 6 {
        var switchX := mapData[ENTITY_DATA_START + 6] as real;
        var switchY := mapData[ENTITY_DATA_START + 7] as real;
        e := DoorLockedEntity.NewDoorLocked(xpos, ypos, orientation, switchX, switchY, classes(DOOR_LOCKED));
      } else if entityType == 8 {
        var switchX := mapData[ENTITY_DATA_START + 6] as real;
        var switchY := mapData[ENTITY_DATA_START + 7] as real;
        e := new Entity(DOOR_TRAP, DoorTrap(orientation, switchX, switchY), xpos, ypos, classes(DOOR_TRAP), null);
      }
    }
  
    /**
     * One pass of the record loop of loadMapEntities (lines 355-371) at byte
     * i: the record decoded, its entity created, registered and logged.
     */
    method LoadRecord(i: int) returns (ghost made: seq<Entity>)
      requires |mapData| > EXIT_DOOR_COUNT && 0 <= i && i + 4 < |mapData| && SwitchBytesPresent(mapData, mapData[i] as int)
      requires RegistryConsistent()
      modifies this`entityDic, this`gridEntity, this`trace
      ensures var r := RecordAt(mapData, i);
        && (forall t: EntityType :: Infos(GetOr(entityDic, t, [])) == Infos(GetOr(old(entityDic), t, [])) + TypeStep(r, mapData, t))
        && (forall c: Cell :: Infos(GetOr(gridEntity, c, [])) == Infos(GetOr(old(gridEntity), c, [])) + CellStep(r, mapData, c))
        && Infos(made) == OptList(Created(r, mapData))
      ensures trace == old(trace) + LogPositions(made)
      ensures old(gridEntity).Keys <= gridEntity.Keys && old(entityDic).Keys <= entityDic.Keys
      ensures RegistryConsistent()
    {
      var entityType := mapData[i] as int;
      var xpos := (mapData[i + 1] as int + 256 * mapData[i + 2] as int) as real / 10.0;
      var ypos := (mapData[i + 3] as int + 256 * mapData[i + 4] as int) as real / 10.0;
      var orientation := mapData[i + 3] as int;
      var mode := mapData[i + 4] as int;
      ghost var r := Record(entityType, xpos, ypos, orientation, mode);
      assert r == RecordAt(mapData, i);
      ghost var d0, g0 := entityDic, gridEntity;
      var e := CreateEntity(entityType, xpos, ypos, orientation, mode);
      ghost var d1 := entityDic;
      made := [];
      if e != null {
        AddEntity(e);
        trace := trace + [LogPosition(e)];
        made := [e];
      }
      TypesAfterRecord(d0, d1, entityDic, r, mapData, e);
      CellsAfterRecord(g0, gridEntity, r, mapData, e);
    }

    /**
     * loadMapEntities (lines 340-373): a fresh ninja, the sentinel byte
     * forced, then the records from byte 1234 on, each created, registered
     * and logged, until the end of the map or a type byte 0.
     */
    method LoadMapEntities()
      requires HasHeader(mapData) && StreamOk(mapData, ENTITY_DATA_START) && RegistryConsistent()
      modifies this`ninja, this`mapData, this`entityDic, this`gridEntity, this`trace
      ensures ninja != null && fresh(ninja) && ninja.radius == ninjaRadius
      ensures ninja.View() == NinjaView(0, 0.0, 0.0, 0, 0, 0.0, 0.0, 0, 0.0, 0)
      ensures mapData == WithSentinelFixed(old(mapData))
      ensures StreamOk(mapData, ENTITY_DATA_START) && AllSwitchBytes(Records(mapData, ENTITY_DATA_START), mapData)
      ensures TypesLoaded(entityDic, old(entityDic), Records(mapData, ENTITY_DATA_START), mapData)
      ensures CellsLoaded(gridEntity, old(gridEntity), Records(mapData, ENTITY_DATA_START), mapData)
      ensures old(gridEntity).Keys <= gridEntity.Keys && old(entityDic).Keys <= entityDic.Keys
      ensures |old(trace)| <= |trace| && trace[..|old(trace)|] == old(trace)
      ensures LogsOf(trace[|old(trace)|..], CreatedAll(Records(mapData, ENTITY_DATA_START), mapData))
      ensures RegistryConsistent()
    {
      ninja := new Ninja(ninjaRadius);
      SentinelLeavesRecords(mapData, ENTITY_DATA_START);
      if mapData[SENTINEL] as int != -1 && mapData[SENTINEL] as int != 1 {
        mapData := mapData[SENTINEL := StoreByte(-1)];
      }
      assert mapData == WithSentinelFixed(old(mapData));
      LoadRecords();
    }

    /** The record loop of loadMapEntities (lines 351-372): one record of five bytes after another until a zero type byte or the end. */
    method LoadRecords()
      requires HasHeader(mapData) && StreamOk(mapData, ENTITY_DATA_START) && RegistryConsistent()
      modifies this`entityDic, this`gridEntity, this`trace
      ensures AllSwitchBytes(Records(mapData, ENTITY_DATA_START), mapData)
      ensures TypesLoaded(entityDic, old(entityDic), Records(mapData, ENTITY_DATA_START), mapData)
      ensures CellsLoaded(gridEntity, old(gridEntity), Records(mapData, ENTITY_DATA_START), mapData)
      ensures old(gridEntity).Keys <= gridEntity.Keys && old(entityDic).Keys <= entityDic.Keys
      ensures |old(trace)| <= |trace| && trace[..|old(trace)|] == old(trace)
      ensures LogsOf(trace[|old(trace)|..], CreatedAll(Records(mapData, ENTITY_DATA_START), mapData))
      ensures RegistryConsistent()
    {
      ghost var data := mapData;
      ghost var d0, g0, tr0 := entityDic, gridEntity, trace;
      ghost var done: seq<Record> := [];
      ghost var made: seq<Entity> := [];
      var index := ENTITY_DATA_START;
      while index < |mapData|
        invariant RegistryConsistent()
        invariant Loading(data, index, done, made, entityDic, gridEntity, trace, d0, g0, tr0)
      {
        if mapData[index] == 0 {
          break;
        }
        RecordsStep(mapData, index);
        ghost var dic, grid, tr := entityDic, gridEntity, trace;
        ghost var m := LoadRecord(index);
        LoadingAdvance(data, index, done, made, m, dic, grid, tr, entityDic, gridEntity, trace, d0, g0, tr0);
        done, made := done + [RecordAt(data, index)], made + m;
        index := index + RECORD_SIZE;
      }
      LoadingDone(data, index, done, made, entityDic, gridEntity, trace, d0, g0, tr0);
    }

    /** reset (lines 203-210): the entity state rebuilt from the records of the map alone. */
    method Reset()
      requires HasHeader(mapData) && StreamOk(mapData, ENTITY_DATA_START)
      modifies this`frame, this`collisionLog, this`ninja, this`mapData, this`entityDic, this`gridEntity, this`trace
      ensures (tileDic, horGridEdge, verGridEdge, horSegment, verSegment, segmentDic) ==
        old((tileDic, horGridEdge, verGridEdge, horSegment, verSegment, segmentDic))
      ensures mapData == WithSentinelFixed(old(mapData)) && frame == 0 && collisionLog == []
      ensures ninja != null && fresh(ninja) && ninja.radius == ninjaRadius
      ensures ninja.View() == NinjaView(0, 0.0, 0.0, 0, 0, 0.0, 0.0, 0, 0.0, 0)
      ensures EntitiesFrom(mapData, entityDic, gridEntity, trace, old(trace))
      ensures old(Valid()) ==> Valid()
    {
      frame := 0;
      collisionLog := [];
      ninja := null;
      ReloadEntities();
    }

    /** The entity half of reset: the registry emptied, then the map's entities loaded. */
    method ReloadEntities()
      requires HasHeader(mapData) && StreamOk(mapData, ENTITY_DATA_START)
      modifies this`ninja, this`mapData, this`entityDic, this`gridEntity, this`trace
      ensures mapData == WithSentinelFixed(old(mapData))
      ensures ninja != null && fresh(ninja) && ninja.radius == ninjaRadius
      ensures ninja.View() == NinjaView(0, 0.0, 0.0, 0, 0, 0.0, 0.0, 0, 0.0, 0)
      ensures EntitiesFrom(mapData, entityDic, gridEntity, trace, old(trace))
    {
      ghost var tr0 := trace;
      ResetMapEntityData();
      ghost var d0, g0 := entityDic, gridEntity;
      LoadMapEntities();
      LoadedFromReset(mapData, entityDic, gridEntity, trace, tr0, d0, g0);
    }

    /** load (lines 195-201): the map bytes stored, the tile dictionaries rebuilt, then the entities. */
    method Load(data: seq<byte>, order: seq<Cell>)
      requires HasHeader(data) && StreamOk(data, ENTITY_DATA_START)
      requires forall c: Cell :: c in tileDic ==> InTileGrid(c)
      requires Distinct(order) && (forall c :: c in order <==> InTileGrid(c))
      modifies this
      ensures TileDataFrom(data, tileDic, horGridEdge, verGridEdge, horSegment, verSegment, segmentDic)
      ensures mapData == WithSentinelFixed(data) && frame == 0 && collisionLog == []
      ensures ninja != null && fresh(ninja) && ninja.View() == NinjaView(0, 0.0, 0.0, 0, 0, 0.0, 0.0, 0, 0.0, 0)
      ensures EntitiesFrom(mapData, entityDic, gridEntity, trace, old(trace))
      ensures Valid()
    {
      ghost var tr0 := trace;
      LoadTiles(data, order);
      assert trace == tr0;
      Reset();
    }

    /** The first three lines of load: the bytes stored, the tile dictionaries reset, then loaded. */
    method LoadTiles(data: seq<byte>, order: seq<Cell>)
      requires HasHeader(data)
      requires forall c: Cell :: c in tileDic ==> InTileGrid(c)
      requires Distinct(order) && (forall c :: c in order <==> InTileGrid(c))
      modifies this`mapData, this`tileDic, this`horGridEdge, this`verGridEdge, this`horSegment, this`verSegment, this`segmentDic
      ensures mapData == data && TileDataFrom(data, tileDic, horGridEdge, verGridEdge, horSegment, verSegment, segmentDic)
      ensures forall c: Cell :: c in tileDic ==> InTileGrid(c)
    {
      mapData := data;
      ResetMapTileData();
      ResetLayerIs(horGridEdge, Parity, Horizontal);
      ResetLayerIs(verGridEdge, Parity, Vertical);
      ResetLayerIs(horSegment, Strength, Horizontal);
      ResetLayerIs(verSegment, Strength, Vertical);
      EmptySegmentsIs(segmentDic);
      LoadMapTiles(order);
    }

    /**
     * tick (lines 375-474): the frame counted, the ninja's inputs set, the
     * active entities gathered, moved and thought, the ninja's physics block
     * unless its state is 9, the death pin, logging and the cache clear every
     * hundredth frame. The physics block's effect is given: afterPhysics is
     * the ninja it leaves (inputs aside), flagChanges the setActive calls its
     * collision rounds make on entities.
     */
    method Tick(horInput: real, jumpInput: int, afterPhysics: NinjaView, flagChanges: seq<FlagChange>)
      modifies this`frame, this`trace, ninja, Targets(flagChanges)`active
      ensures frame == old(frame) + 1
      ensures ninja != null ==>
        ninja.View() == (if old(ninja.state) != PHYSICS_OFF_STATE then afterPhysics else old(ninja.View()))
                          .(horInput := horInput, jumpInput := jumpInput)
      ensures forall x :: x in Targets(flagChanges) ==>
        x.active == if ninja != null && old(ninja.state) != PHYSICS_OFF_STATE then FlagAfter(flagChanges, x, old(x.active)) else old(x.active)
      ensures trace == old(trace) +
        TickEvents(old(ActiveMovable(RegistryOrder(entityDic))), old(ActiveThinkable(RegistryOrder(entityDic))),
                   ninja != null && old(ninja.state) != PHYSICS_OFF_STATE,
                   ninja != null && ninja.state == DEAD_STATE && enableAnim,
                   enableAnim, logData, ninja != null, frame)
      ensures old(Valid()) ==> Valid()
    {
      ghost var tr0 := trace;
      // The gathering reads only the entities, so it may come first.
      var movable, thinkable := Gather(entityDic);
      assert movable == old(ActiveMovable(RegistryOrder(entityDic)));
      assert thinkable == old(ActiveThinkable(RegistryOrder(entityDic)));
      frame := frame + 1;
      var n := ninja;
      if n != null {
        n.horInput, n.jumpInput := horInput, jumpInput;
      }
      var tr := MoveAll(movable, trace);
      tr := ThinkAll(thinkable, tr);
      ghost var entitySteps := tr;
      var physics := n != null && n.state != PHYSICS_OFF_STATE;
      if physics {
        tr := PhysicsBlock(n, afterPhysics, flagChanges, tr);
      }
      ghost var steps := tr;
      var pin := n != null && n.state == DEAD_STATE && enableAnim;
      tr := AfterPhysicsCalls(movable, pin, logData, n != null, frame, tr);
      assert physics == (ninja != null && old(ninja.state) != PHYSICS_OFF_STATE);
      assert pin == (ninja != null && ninja.state == DEAD_STATE && enableAnim);
      TickEventsJoin(tr0, entitySteps, steps, tr, movable, thinkable, physics, pin, enableAnim, logData, n != null, frame);
      trace := tr;
    }

    /**
     * The ninja's physics block of tick (lines 422-445): integrate,
     * pre-collision, four collision rounds, post-collision, think and, with
     * animation on, a graphics update. The hooks run by the collision rounds
     * make the setActive calls flagChanges; the block leaves the ninja as
     * after, its inputs aside.
     */
    method PhysicsBlock(n: Ninja, after: NinjaView, flagChanges: seq<FlagChange>, tr0: seq<Event>) returns (tr: seq<Event>)
      modifies n, Targets(flagChanges)`active
      ensures tr == tr0 + PhysicsSteps(enableAnim)
      ensures n.View() == after.(horInput := old(n.horInput), jumpInput := old(n.jumpInput))
      ensures forall x :: x in Targets(flagChanges) ==> x.active == FlagAfter(flagChanges, x, old(x.active))
    {
      tr := tr0 + [Integrate, PreCollision];
      tr := CollisionRounds(tr);
      ApplyFlags(flagChanges);
      tr := tr + [PostCollision, NinjaThink];
      n.state, n.xpos, n.ypos := after.state, after.xpos, after.ypos;
      n.goldCollected, n.doorsOpened := after.goldCollected, after.doorsOpened;
      n.xlpBoostNormalized, n.ylpBoostNormalized, n.launchPadBuffer :=
        after.xlpBoostNormalized, after.ylpBoostNormalized, after.launchPadBuffer;
      if enableAnim {
        tr := tr + [UpdateGraphics];
      }
    }
  }
}
