/**
 * What Simulation::loadMapTiles computes from the tile grid
 * (src/simulation.cpp:238-337), stated as functions of the tile dictionary:
 * the contribution of one tile to one half-resolution position, the sum of
 * contributions of a set of processed tiles, the cell that owns a
 * materialised orthogonal segment, and the segments each bucket receives.
 */
module TileGeometry {
  import opened Wrappers
  import opened TileTables
  import opened Grid

  /** A collision segment: GridSegmentLinear or GridSegmentCircular. */
  datatype Segment =
    | Linear(p1: Point, p2: Point)
    | Circular(center: Point, quadrant: Point, convex: bool)

  /** Which pair of half-resolution dictionaries: horizontal or vertical edges. */
  datatype Axis = Horizontal | Vertical

  /** Parity (horGridEdgeDic / verGridEdgeDic) or strength (horSegmentDic / verSegmentDic). */
  datatype Layer = Parity | Strength

  /**
   * The row entry that tile cell t adds at half-resolution position p, or -1
   * when p is not one of the six positions the tile touches on that axis:
   * horizontally (2t.x + x, 2t.y + y) for x < 2, y < 3 takes entry 2y + x;
   * vertically (2t.x + x, 2t.y + y) for x < 3, y < 2 takes entry 6 + 2x + y.
   */
  function RowIndex(axis: Axis, t: Cell, p: Cell): (k: int)
    ensures -1 <= k < 12
    ensures axis == Horizontal ==> k < 6
    ensures axis == Vertical && k >= 0 ==> 6 <= k
  {
    match axis
    case Horizontal =>
      if 2 * t.x <= p.x <= 2 * t.x + 1 && 2 * t.y <= p.y <= 2 * t.y + 2
      then 2 * (p.y - 2 * t.y) + (p.x - 2 * t.x) else -1
    case Vertical =>
      if 2 * t.x <= p.x <= 2 * t.x + 2 && 2 * t.y <= p.y <= 2 * t.y + 1
      then 6 + 2 * (p.x - 2 * t.x) + (p.y - 2 * t.y) else -1
  }

  /** Both orthogonal rows of a tile id, or None when either table lacks it (lines 245-248). */
  function OrthoRows(id: int): Option<(Row, Row)>
  {
    match (GridEdgeRow(id), OrthoRow(id))
    case (Some(e), Some(o)) => Some((e, o))
    case _ => None
  }

  /** What a tile whose row is `entry` adds at p from t, counting only its first n row entries. */
  function RowEntries(entry: int -> int, axis: Axis, t: Cell, p: Cell, n: int): int
  {
    var k := RowIndex(axis, t, p);
    if 0 <= k < n then entry(k) else 0
  }

  /** The row a layer reads: the grid edge row for parity, the segment row for strength. */
  function LayerRow(layer: Layer, e: Row, o: Row): int -> int
  {
    match layer
    case Parity => k => if 0 <= k < 12 then e.At(k) else 0
    case Strength => k => if 0 <= k < 12 then o.At(k) else 0
  }

  /** Counting one more entry adds that entry exactly at the position it belongs to. */
  lemma RowEntriesNext(entry: int -> int, axis: Axis, t: Cell, p: Cell, n: int)
    ensures RowEntries(entry, axis, t, p, n + 1) ==
      RowEntries(entry, axis, t, p, n) + (if RowIndex(axis, t, p) == n && 0 <= n then entry(n) else 0)
  {
  }

  /** Entry 2y + x of the horizontal rows belongs to exactly one position, and entry 6 + 2x + y of the vertical ones. */
  lemma RowIndexPosition(t: Cell, x: int, y: int, p: Cell)
    ensures 0 <= x < 2 && 0 <= y < 3 ==>
      (RowIndex(Horizontal, t, p) == 2 * y + x <==> p == Cell(2 * t.x + x, 2 * t.y + y))
    ensures 0 <= x < 3 && 0 <= y < 2 ==>
      (RowIndex(Vertical, t, p) == 6 + 2 * x + y <==> p == Cell(2 * t.x + x, 2 * t.y + y))
  {
  }

  /** The first row entry of an axis: horizontal entries are 0..5, vertical ones 6..11. */
  function FirstEntry(axis: Axis): int
  {
    match axis
    case Horizontal => 0
    case Vertical => 6
  }

  /** The position row entry k of tile t belongs to: the inverse of RowIndex. */
  function EntryPosition(axis: Axis, t: Cell, k: int): Cell
  {
    match axis
    case Horizontal => Cell(2 * t.x + k % 2, 2 * t.y + k / 2)
    case Vertical => Cell(2 * t.x + (k - 6) / 2, 2 * t.y + (k - 6) % 2)
  }

  /** Each of an axis's six entries belongs to exactly its EntryPosition. */
  lemma EntryPositionIndex(axis: Axis, t: Cell, k: int, p: Cell)
    requires FirstEntry(axis) <= k < FirstEntry(axis) + 6
    ensures RowIndex(axis, t, p) == k <==> p == EntryPosition(axis, t, k)
  {
    match axis
    case Horizontal => RowIndexPosition(t, k % 2, k / 2, p);
    case Vertical => RowIndexPosition(t, (k - 6) / 2, (k - 6) % 2, p);
  }

  /** How one row entry d changes a stored value: parity toggles, strength adds. */
  function Bump(layer: Layer, v: int, d: int): int
  {
    match layer
    case Parity => (v + d) % 2
    case Strength => v + d
  }

  /** The positions entries FirstEntry(axis) .. n - 1 of tile t write to. */
  function Written(axis: Axis, t: Cell, n: int): set<Cell>
  {
    set k | FirstEntry(axis) <= k < n :: EntryPosition(axis, t, k)
  }

  /**
   * The layer map m after the row entries FirstEntry(axis) .. n - 1 of tile t
   * have been applied one after another, as lines 254-273 do: each reads its
   * position (0 when absent, as `operator[]` of a C++ map does) and writes it
   * back bumped.
   */
  function Applied(layer: Layer, m: map<Cell, int>, entry: int -> int, axis: Axis, t: Cell, n: int): map<Cell, int>
    requires FirstEntry(axis) <= n
    decreases n
  {
    if n == FirstEntry(axis) then m
    else
      var prev := Applied(layer, m, entry, axis, t, n - 1);
      var pos := EntryPosition(axis, t, n - 1);
      prev[pos := Bump(layer, GetOr(prev, pos, 0), entry(n - 1))]
  }

  /**
   * The same map described position by position: each written position
   * bumped once by its own entry, every other position as it was.
   */
  function AppliedAll(layer: Layer, m: map<Cell, int>, entry: int -> int, axis: Axis, t: Cell, n: int): map<Cell, int>
  {
    map p | p in m.Keys + Written(axis, t, n) ::
      var k := RowIndex(axis, t, p);
      if FirstEntry(axis) <= k < n then Bump(layer, GetOr(m, p, 0), entry(k)) else GetOr(m, p, 0)
  }

  /** Every position the six entries of tile t write to on this axis is already a key of m. */
  ghost predicate Touches(axis: Axis, t: Cell, m: map<Cell, int>)
  {
    forall k :: FirstEntry(axis) <= k < FirstEntry(axis) + 6 ==> EntryPosition(axis, t, k) in m
  }

  /** Every position a tile of the grid writes to lies in the 89 x 51 half grid. */
  lemma TouchesHalfGrid(axis: Axis, t: Cell, m: map<Cell, int>)
    requires InTileGrid(t)
    requires forall p: Cell :: InHalfGrid(p) ==> p in m
    ensures Touches(axis, t, m)
  {
    forall k | FirstEntry(axis) <= k < FirstEntry(axis) + 6
      ensures EntryPosition(axis, t, k) in m
    {
      assert InHalfGrid(EntryPosition(axis, t, k));
    }
  }

  /** With no entry applied the map is unchanged. */
  lemma AppliedAllNone(layer: Layer, m: map<Cell, int>, entry: int -> int, axis: Axis, t: Cell)
    ensures AppliedAll(layer, m, entry, axis, t, FirstEntry(axis)) == m
  {
    assert Written(axis, t, FirstEntry(axis)) == {};
  }

  /** Horizontal loop step (x, y) handles row entry 2y + x. */
  lemma HorizontalPosition(t: Cell, x: int, y: int, k: int)
    requires 0 <= x < 2 && 0 <= y < 3 && k == 2 * y + x
    ensures EntryPosition(Horizontal, t, k) == Cell(2 * t.x + x, 2 * t.y + y)
  {
  }

  /** Vertical loop step (x, y) handles row entry 6 + 2x + y. */
  lemma VerticalPosition(t: Cell, x: int, y: int, k: int)
    requires 0 <= x < 3 && 0 <= y < 2 && k == 2 * x + y + 6
    ensures EntryPosition(Vertical, t, k) == Cell(2 * t.x + x, 2 * t.y + y)
  {
  }

  /**
   * The loop step: from the map `cur` after entry n - 1, entry n writes its
   * position bumped by its entry d; `next` names n + 1 and `d` the entry as
   * the caller writes them.
   */
  lemma AppliedStep(layer: Layer, m: map<Cell, int>, entry: int -> int, axis: Axis, t: Cell, n: int, next: int, pos: Cell, cur: map<Cell, int>, d: int)
    requires FirstEntry(axis) <= n && next == n + 1 && pos == EntryPosition(axis, t, n) && d == entry(n)
    requires cur == Applied(layer, m, entry, axis, t, n)
    ensures Applied(layer, m, entry, axis, t, next) == cur[pos := Bump(layer, GetOr(cur, pos, 0), d)]
  {
  }

  /** Applying entries one after another agrees with the position-by-position description. */
  lemma {:induction false} AppliedMeaning(layer: Layer, m: map<Cell, int>, entry: int -> int, axis: Axis, t: Cell, n: int)
    requires FirstEntry(axis) <= n <= FirstEntry(axis) + 6
    ensures Applied(layer, m, entry, axis, t, n) == AppliedAll(layer, m, entry, axis, t, n)
    decreases n
  {
    if n == FirstEntry(axis) {
      AppliedAllNone(layer, m, entry, axis, t);
    } else {
      AppliedMeaning(layer, m, entry, axis, t, n - 1);
      AppliedAllStep(layer, m, entry, axis, t, n - 1, n, EntryPosition(axis, t, n - 1), Applied(layer, m, entry, axis, t, n - 1));
    }
  }

  /** The step of AppliedMeaning: entry n changes only its own position. */
  lemma AppliedAllStep(layer: Layer, m: map<Cell, int>, entry: int -> int, axis: Axis, t: Cell, n: int, next: int, pos: Cell, cur: map<Cell, int>)
    requires FirstEntry(axis) <= n < FirstEntry(axis) + 6 && next == n + 1 && pos == EntryPosition(axis, t, n)
    requires cur == AppliedAll(layer, m, entry, axis, t, n)
    ensures AppliedAll(layer, m, entry, axis, t, next) == cur[pos := Bump(layer, GetOr(cur, pos, 0), entry(n))]
  {
    var after := AppliedAll(layer, m, entry, axis, t, next);
    var lhs := cur[pos := Bump(layer, GetOr(cur, pos, 0), entry(n))];
    WrittenStep(axis, t, n, next);
    EntryPositionIndex(axis, t, n, pos);
    forall p | p in after
      ensures p in lhs && after[p] == lhs[p]
    {
      EntryPositionIndex(axis, t, n, p);
    }
    assert after == lhs;
  }

  /** Entry n adds its own position to those written. */
  lemma WrittenStep(axis: Axis, t: Cell, n: int, next: int)
    requires FirstEntry(axis) <= n && next == n + 1
    ensures Written(axis, t, next) == Written(axis, t, n) + {EntryPosition(axis, t, n)}
  {
    forall q | q in Written(axis, t, next)
      ensures q in Written(axis, t, n) + {EntryPosition(axis, t, n)}
    {
      var k :| FirstEntry(axis) <= k < next && q == EntryPosition(axis, t, k);
      if k < n {
        assert q in Written(axis, t, n);
      }
    }
    forall q | q in Written(axis, t, n)
      ensures q in Written(axis, t, next)
    {
      var k :| FirstEntry(axis) <= k < n && q == EntryPosition(axis, t, k);
      assert FirstEntry(axis) <= k < next;
    }
    assert EntryPosition(axis, t, n) in Written(axis, t, next);
  }

  lemma ModTwoShift(a: int, k: int)
    ensures (a % 2 + k) % 2 == (a + k) % 2
  {
    var q := a / 2;
    assert a == 2 * q + a % 2;
    assert a + k == 2 * q + (a % 2 + k);
  }

  /** Bumping by a and then by d is bumping by a + d, on either layer. */
  lemma BumpTwice(layer: Layer, v: int, a: int, d: int)
    ensures Bump(layer, Bump(layer, v, a), d) == Bump(layer, v, a + d)
  {
    if layer == Parity {
      ModTwoShift(v + a, d);
    }
  }

  /** Parity values that start as bits stay equal to their sum taken modulo 2. */
  predicate Bits(m: map<Cell, int>)
  {
    forall p :: p in m ==> 0 <= m[p] <= 1
  }

  /** What tile t with this id adds to the layer at p (lines 254-273): nothing for an id either table lacks. */
  function Contribution(layer: Layer, axis: Axis, id: int, t: Cell, p: Cell): int
  {
    match OrthoRows(id)
    case None => 0
    case Some((e, o)) => RowEntries(LayerRow(layer, e, o), axis, t, p, 12)
  }

  /** With both rows known, the contribution is the full row entry, and the parity row holds bits. */
  lemma ContributionByRows(id: int, e: Row, o: Row, t: Cell)
    requires OrthoRows(id) == Some((e, o))
    ensures forall k :: 0 <= k < 12 ==> 0 <= LayerRow(Parity, e, o)(k) <= 1
    ensures forall layer, axis, p :: Contribution(layer, axis, id, t, p) == RowEntries(LayerRow(layer, e, o), axis, t, p, 12)
  {
    ParityRowsAreBits(id);
  }
  /** The layer map m with tile t's contribution (by tile id) added at every position. */
  function WithContribution(layer: Layer, axis: Axis, id: int, t: Cell, m: map<Cell, int>): (r: map<Cell, int>)
    ensures r.Keys == m.Keys
    ensures layer == Parity ==> Bits(r)
  {
    map p | p in m :: Bump(layer, m[p], Contribution(layer, axis, id, t, p))
  }

  /**
   * A tile whose rows are both known, applied entry by entry over an axis,
   * leaves every position bumped by exactly its Contribution.
   */
  lemma AppliedContribution(layer: Layer, axis: Axis, id: int, e: Row, o: Row, t: Cell, m: map<Cell, int>)
    requires OrthoRows(id) == Some((e, o))
    requires layer == Parity ==> Bits(m)
    requires Touches(axis, t, m)
    ensures Applied(layer, m, LayerRow(layer, e, o), axis, t, FirstEntry(axis) + 6) == WithContribution(layer, axis, id, t, m)
  {
    AppliedMeaning(layer, m, LayerRow(layer, e, o), axis, t, FirstEntry(axis) + 6);
    AppliedAllContribution(layer, axis, id, e, o, t, m);
  }

  /** AppliedContribution for the position-by-position description. */
  lemma AppliedAllContribution(layer: Layer, axis: Axis, id: int, e: Row, o: Row, t: Cell, m: map<Cell, int>)
    requires OrthoRows(id) == Some((e, o))
    requires layer == Parity ==> Bits(m)
    requires Touches(axis, t, m)
    ensures AppliedAll(layer, m, LayerRow(layer, e, o), axis, t, FirstEntry(axis) + 6) == WithContribution(layer, axis, id, t, m)
  {
    var a := AppliedAll(layer, m, LayerRow(layer, e, o), axis, t, FirstEntry(axis) + 6);
    var w := WithContribution(layer, axis, id, t, m);
    assert Written(axis, t, FirstEntry(axis) + 6) <= m.Keys;
    forall p | p in a
      ensures p in w && a[p] == w[p]
    {
      ContributionAt(layer, axis, id, e, o, t, m, p);
    }
    assert a == w;
  }

  /** AppliedContribution at one position. */
  lemma ContributionAt(layer: Layer, axis: Axis, id: int, e: Row, o: Row, t: Cell, m: map<Cell, int>, p: Cell)
    requires OrthoRows(id) == Some((e, o))
    requires layer == Parity ==> Bits(m)
    requires p in m
    ensures Bump(layer, m[p], Contribution(layer, axis, id, t, p)) ==
      var k := RowIndex(axis, t, p);
      if FirstEntry(axis) <= k < FirstEntry(axis) + 6 then Bump(layer, m[p], LayerRow(layer, e, o)(k)) else m[p]
  {
    var k := RowIndex(axis, t, p);
    if !(FirstEntry(axis) <= k < FirstEntry(axis) + 6) {
      assert Contribution(layer, axis, id, t, p) == 0;
      if layer == Parity {
        assert 0 <= m[p] <= 1;
      }
    }
  }

  /** A tile whose id either orthogonal table lacks leaves a layer map as it was. */
  lemma NoRowsUnchanged(layer: Layer, axis: Axis, id: int, t: Cell, m: map<Cell, int>)
    requires OrthoRows(id).None?
    requires layer == Parity ==> Bits(m)
    ensures WithContribution(layer, axis, id, t, m) == m
  {
    var w := WithContribution(layer, axis, id, t, m);
    forall p | p in m
      ensures w[p] == m[p]
    {
      if layer == Parity {
        assert 0 <= m[p] <= 1;
      }
    }
  }



  /**
   * The tile cells whose rows reach p on the axis: the cell with p in its
   * upper-left quarter, and for an even coordinate across the axis also the
   * cell before it, whose last half-edge is shared.
   */
  function Covering(axis: Axis, p: Cell): (cs: seq<Cell>)
    ensures 1 <= |cs| <= 2
    ensures |cs| == 2 ==> cs[0] != cs[1]
  {
    match axis
    case Horizontal =>
      [Cell(p.x / 2, p.y / 2)] + (if p.y % 2 == 0 then [Cell(p.x / 2, p.y / 2 - 1)] else [])
    case Vertical =>
      [Cell(p.x / 2, p.y / 2)] + (if p.x % 2 == 0 then [Cell(p.x / 2 - 1, p.y / 2)] else [])
  }

  /** A tile reaches p exactly when it is one of the covering cells of p. */
  lemma CoveringComplete(axis: Axis, t: Cell, p: Cell)
    ensures RowIndex(axis, t, p) >= 0 <==> t in Covering(axis, p)
  {
  }

  /** The share of tile t in the sum over the processed cells `done`. */
  function Share(layer: Layer, axis: Axis, tiles: map<Cell, int>, done: set<Cell>, t: Cell, p: Cell): int
  {
    if t in done && t in tiles then Contribution(layer, axis, tiles[t], t, p) else 0
  }

  /** The sum of the contributions at p of the processed tiles `done`. */
  function Accumulated(layer: Layer, axis: Axis, tiles: map<Cell, int>, done: set<Cell>, p: Cell): int
  {
    var cs := Covering(axis, p);
    Share(layer, axis, tiles, done, cs[0], p) +
    (if |cs| == 2 then Share(layer, axis, tiles, done, cs[1], p) else 0)
  }

  /** The sum of the contributions at p of every tile of the dictionary. */
  function Total(layer: Layer, axis: Axis, tiles: map<Cell, int>, p: Cell): int
  {
    Accumulated(layer, axis, tiles, tiles.Keys, p)
  }

  /**
   * Processing one more tile adds exactly its contribution, whichever tiles
   * were processed before: the source's sums do not depend on the order in
   * which its tile dictionary is visited.
   */
  lemma {:induction false} AccumulatedStep(layer: Layer, axis: Axis, tiles: map<Cell, int>, done: set<Cell>, c: Cell, p: Cell)
    requires c in tiles && c !in done
    ensures Accumulated(layer, axis, tiles, done + {c}, p)
         == Accumulated(layer, axis, tiles, done, p) + Contribution(layer, axis, tiles[c], c, p)
  {
    var cs := Covering(axis, p);
    CoveringComplete(axis, c, p);
    if c !in cs {
      assert Contribution(layer, axis, tiles[c], c, p) == 0;
    }
  }

  /** AccumulatedStep at every position at once. */
  lemma AccumulatedStepAll(layer: Layer, axis: Axis, tiles: map<Cell, int>, done: set<Cell>, c: Cell)
    requires c in tiles && c !in done
    ensures forall p: Cell :: (Accumulated(layer, axis, tiles, done + {c}, p)
         == Accumulated(layer, axis, tiles, done, p) + Contribution(layer, axis, tiles[c], c, p))
  {
    forall p: Cell
      ensures Accumulated(layer, axis, tiles, done + {c}, p)
           == Accumulated(layer, axis, tiles, done, p) + Contribution(layer, axis, tiles[c], c, p)
    {
      AccumulatedStep(layer, axis, tiles, done, c, p);
    }
  }

  /** The layer map m with the contributions of every processed tile `done` added at each position. */
  function Summed(layer: Layer, axis: Axis, tiles: map<Cell, int>, done: set<Cell>, m: map<Cell, int>): (r: map<Cell, int>)
    ensures r.Keys == m.Keys
    ensures layer == Parity ==> Bits(r)
  {
    map p | p in m :: Bump(layer, m[p], Accumulated(layer, axis, tiles, done, p))
  }

  /** Before any tile is processed the map is as it started (parity starting as bits). */
  lemma SummedNone(layer: Layer, axis: Axis, tiles: map<Cell, int>, m: map<Cell, int>)
    requires layer == Parity ==> Bits(m)
    ensures Summed(layer, axis, tiles, {}, m) == m
  {
    var r := Summed(layer, axis, tiles, {}, m);
    forall p | p in m
      ensures r[p] == m[p]
    {
      if layer == Parity {
        assert 0 <= m[p] <= 1;
      }
    }
  }

  /**
   * Adding one more tile's contribution to the summed map gives the sum over
   * one more tile, whichever tiles came before.
   */
  lemma SummedStep(layer: Layer, axis: Axis, tiles: map<Cell, int>, done: set<Cell>, c: Cell, m: map<Cell, int>)
    requires c in tiles && c !in done
    ensures WithContribution(layer, axis, tiles[c], c, Summed(layer, axis, tiles, done, m)) == Summed(layer, axis, tiles, done + {c}, m)
  {
    var lhs := WithContribution(layer, axis, tiles[c], c, Summed(layer, axis, tiles, done, m));
    var rhs := Summed(layer, axis, tiles, done + {c}, m);
    forall p | p in m
      ensures lhs[p] == rhs[p]
    {
      SummedStepAt(layer, axis, tiles, done, c, m, p);
    }
    assert lhs == rhs;
  }

  /** SummedStep at one position. */
  lemma SummedStepAt(layer: Layer, axis: Axis, tiles: map<Cell, int>, done: set<Cell>, c: Cell, m: map<Cell, int>, p: Cell)
    requires c in tiles && c !in done && p in m
    ensures WithContribution(layer, axis, tiles[c], c, Summed(layer, axis, tiles, done, m))[p] == Summed(layer, axis, tiles, done + {c}, m)[p]
  {
    var before := Summed(layer, axis, tiles, done, m);
    var a := Accumulated(layer, axis, tiles, done, p);
    var d := Contribution(layer, axis, tiles[c], c, p);
    calc {
      WithContribution(layer, axis, tiles[c], c, before)[p];
    == { WithContributionAt(layer, axis, tiles[c], c, before, p); }
      Bump(layer, before[p], d);
    == { SummedAt(layer, axis, tiles, done, m, p); }
      Bump(layer, Bump(layer, m[p], a), d);
    == { BumpTwice(layer, m[p], a, d); }
      Bump(layer, m[p], a + d);
    == { AccumulatedStep(layer, axis, tiles, done, c, p); }
      Bump(layer, m[p], Accumulated(layer, axis, tiles, done + {c}, p));
    == { SummedAt(layer, axis, tiles, done + {c}, m, p); }
      Summed(layer, axis, tiles, done + {c}, m)[p];
    }
  }

  /** One position of a map with a tile's contribution added. */
  lemma WithContributionAt(layer: Layer, axis: Axis, id: int, t: Cell, m: map<Cell, int>, p: Cell)
    requires p in m
    ensures WithContribution(layer, axis, id, t, m)[p] == Bump(layer, m[p], Contribution(layer, axis, id, t, p))
  {
  }

  /** One position of a summed map. */
  lemma SummedAt(layer: Layer, axis: Axis, tiles: map<Cell, int>, done: set<Cell>, m: map<Cell, int>, p: Cell)
    requires p in m
    ensures Summed(layer, axis, tiles, done, m)[p] == Bump(layer, m[p], Accumulated(layer, axis, tiles, done, p))
  {
  }

  /** The segment lists after tile c with this id has pushed its shapes (lines 276-294). */
  function TilePushed(segs: map<Cell, seq<Segment>>, c: Cell, id: int): map<Cell, seq<Segment>>
  {
    if TileShapes(c, id) == [] then segs else segs[c := GetOr(segs, c, []) + TileShapes(c, id)]
  }

  /** The cells of `done` that put at least one shape into their own list. */
  function Shaped(tiles: map<Cell, int>, done: set<Cell>): set<Cell>
  {
    set c | c in done && c in tiles && TileShapes(c, tiles[c]) != []
  }

  /** The segment lists s0 after every processed tile pushed its own shapes into its own cell. */
  function ShapesPlaced(tiles: map<Cell, int>, done: set<Cell>, s0: map<Cell, seq<Segment>>): (r: map<Cell, seq<Segment>>)
    ensures r.Keys == s0.Keys + Shaped(tiles, done)
  {
    map c | c in s0.Keys + Shaped(tiles, done) ::
      GetOr(s0, c, []) + (if c in done && c in tiles then TileShapes(c, tiles[c]) else [])
  }

  /** Pushing one more tile's shapes gives the placement over one more tile, in any order. */
  lemma PlacedStep(tiles: map<Cell, int>, done: set<Cell>, c: Cell, s0: map<Cell, seq<Segment>>)
    requires c in tiles && c !in done
    ensures TilePushed(ShapesPlaced(tiles, done, s0), c, tiles[c]) == ShapesPlaced(tiles, done + {c}, s0)
  {
    var before := ShapesPlaced(tiles, done, s0);
    var lhs := TilePushed(before, c, tiles[c]);
    var rhs := ShapesPlaced(tiles, done + {c}, s0);
    assert lhs.Keys == rhs.Keys;
    forall b | b in lhs
      ensures lhs[b] == rhs[b]
    {
      PlacedStepAt(tiles, done, c, s0, b);
    }
  }

  /** PlacedStep at one cell b. */
  lemma PlacedStepAt(tiles: map<Cell, int>, done: set<Cell>, c: Cell, s0: map<Cell, seq<Segment>>, b: Cell)
    requires c in tiles && c !in done
    requires b in TilePushed(ShapesPlaced(tiles, done, s0), c, tiles[c])
    ensures b in ShapesPlaced(tiles, done + {c}, s0)
    ensures TilePushed(ShapesPlaced(tiles, done, s0), c, tiles[c])[b] == ShapesPlaced(tiles, done + {c}, s0)[b]
  {
    var before := ShapesPlaced(tiles, done, s0);
    var sh := TileShapes(c, tiles[c]);
    if b == c {
      if sh != [] {
        assert TilePushed(before, c, tiles[c])[b] == GetOr(before, c, []) + sh;
        assert GetOr(before, c, []) == GetOr(s0, c, []);
      }
    } else {
      assert TilePushed(before, c, tiles[c])[b] == before[b];
    }
  }

  /** With nothing processed, the lists are as they started. */
  lemma PlacedNone(tiles: map<Cell, int>, s0: map<Cell, seq<Segment>>)
    ensures ShapesPlaced(tiles, {}, s0) == s0
  {
    var r := ShapesPlaced(tiles, {}, s0);
    assert Shaped(tiles, {}) == {};
    forall c | c in s0
      ensures r[c] == s0[c]
    {
      assert r[c] == GetOr(s0, c, []) + [];
    }
  }

  /** The layer map m after visiting the tiles of `order` one after another, as the tile pass does. */
  function Visited(layer: Layer, axis: Axis, tiles: map<Cell, int>, order: seq<Cell>, m: map<Cell, int>): map<Cell, int>
  {
    if order == [] then m
    else
      var prev := Visited(layer, axis, tiles, order[..|order| - 1], m);
      var c := order[|order| - 1];
      if c in tiles then WithContribution(layer, axis, tiles[c], c, prev) else prev
  }

  /** Visiting one more tile of the order adds its contribution. */
  lemma VisitedStep(layer: Layer, axis: Axis, tiles: map<Cell, int>, order: seq<Cell>, i: int, next: int, m: map<Cell, int>,
                    cur: map<Cell, int>)
    requires 0 <= i < |order| && next == i + 1 && order[i] in tiles
    requires cur == Visited(layer, axis, tiles, order[..i], m)
    ensures Visited(layer, axis, tiles, order[..next], m) == WithContribution(layer, axis, tiles[order[i]], order[i], cur)
  {
    assert order[..next][..i] == order[..i];
  }

  /**
   * Visiting an order that lists no tile twice sums the contributions of
   * exactly the tiles it lists, whatever their order.
   */
  lemma {:induction false} VisitedMeaning(layer: Layer, axis: Axis, tiles: map<Cell, int>, order: seq<Cell>, m: map<Cell, int>)
    requires Distinct(order) && (forall k :: 0 <= k < |order| ==> order[k] in tiles)
    requires layer == Parity ==> Bits(m)
    ensures Visited(layer, axis, tiles, order, m) == Summed(layer, axis, tiles, Elements(order), m)
  {
    if order == [] {
      SummedNone(layer, axis, tiles, m);
    } else {
      var prefix := order[..|order| - 1];
      var c := order[|order| - 1];
      assert c !in prefix;
      VisitedMeaning(layer, axis, tiles, prefix, m);
      SummedStep(layer, axis, tiles, Elements(prefix), c, m);
    }
  }

  /** The segment lists s0 after visiting the tiles of `order` one after another. */
  function PlacedVisited(tiles: map<Cell, int>, order: seq<Cell>, s0: map<Cell, seq<Segment>>): map<Cell, seq<Segment>>
  {
    if order == [] then s0
    else
      var prev := PlacedVisited(tiles, order[..|order| - 1], s0);
      var c := order[|order| - 1];
      if c in tiles then TilePushed(prev, c, tiles[c]) else prev
  }

  /** Visiting one more tile of the order pushes its shapes. */
  lemma PlacedVisitedStep(tiles: map<Cell, int>, order: seq<Cell>, i: int, next: int, s0: map<Cell, seq<Segment>>,
                          cur: map<Cell, seq<Segment>>)
    requires 0 <= i < |order| && next == i + 1 && order[i] in tiles
    requires cur == PlacedVisited(tiles, order[..i], s0)
    ensures PlacedVisited(tiles, order[..next], s0) == TilePushed(cur, order[i], tiles[order[i]])
  {
    assert order[..next][..i] == order[..i];
  }

  /** Visiting an order that lists no tile twice places the shapes of exactly the tiles it lists. */
  lemma {:induction false} PlacedVisitedMeaning(tiles: map<Cell, int>, order: seq<Cell>, s0: map<Cell, seq<Segment>>)
    requires Distinct(order) && (forall k :: 0 <= k < |order| ==> order[k] in tiles)
    ensures PlacedVisited(tiles, order, s0) == ShapesPlaced(tiles, Elements(order), s0)
  {
    if order == [] {
      PlacedNone(tiles, s0);
    } else {
      var prefix := order[..|order| - 1];
      var c := order[|order| - 1];
      assert c !in prefix;
      PlacedVisitedMeaning(tiles, prefix, s0);
      PlacedStep(tiles, Elements(prefix), c, s0);
    }
  }

  /** Unknown tile ids (38-255 among the byte values) add nothing to any layer. */
  lemma UnknownIdAddsNothing(layer: Layer, axis: Axis, id: int, t: Cell, p: Cell)
    requires !(0 <= id < 38)
    ensures Contribution(layer, axis, id, t, p) == 0
  {
    OrthoTablesKnowSameIds(id);
  }

  /** Every position a tile of the grid touches lies inside the 89 x 51 half-resolution grid. */
  lemma TouchedInHalfGrid(axis: Axis, t: Cell, p: Cell)
    requires InTileGrid(t) && RowIndex(axis, t, p) >= 0
    ensures InHalfGrid(p)
  {
  }

  /** The entries a share may take: the first covering cell brings a top/left or middle entry, the second a bottom/right one. */
  lemma ShareBounds(axis: Axis, tiles: map<Cell, int>, done: set<Cell>, p: Cell)
    ensures var cs := Covering(axis, p);
      var s0 := Share(Strength, axis, tiles, done, cs[0], p);
      (|cs| == 2 ==> -1 <= s0 <= 0 && 0 <= Share(Strength, axis, tiles, done, cs[1], p) <= 1) &&
      (|cs| == 1 ==> -1 <= s0 <= 1)
  {
    var cs := Covering(axis, p);
    if cs[0] in tiles {
      StrengthRowsBounded(tiles[cs[0]]);
    }
    if |cs| == 2 && cs[1] in tiles {
      StrengthRowsBounded(tiles[cs[1]]);
    }
  }

  /**
   * Given the constant tables, an accumulated strength is always -1, 0 or 1,
   * however many tiles have been processed.
   */
  lemma StrengthBounded(axis: Axis, tiles: map<Cell, int>, done: set<Cell>, p: Cell)
    ensures -1 <= Accumulated(Strength, axis, tiles, done, p) <= 1
  {
    ShareBounds(axis, tiles, done, p);
  }

  /**
   * Parity stays a bit, and the operand of the source's `%` is never
   * negative, so C++'s truncating remainder and Dafny's agree.
   */
  lemma ParityStepIsBit(value: int, id: int, axis: Axis, t: Cell, p: Cell)
    requires 0 <= value <= 1
    ensures 0 <= value + Contribution(Parity, axis, id, t, p)
    ensures (value + Contribution(Parity, axis, id, t, p)) % 2 == value + Contribution(Parity, axis, id, t, p) - 2 * ((value + Contribution(Parity, axis, id, t, p)) / 2)
  {
    ParityRowsAreBits(id);
  }

  // ---- Materialising the orthogonal segments (lines 297-337) ----

  /** `static_cast<int>(std::floor(n / 2))` on an int: C++ division truncates toward zero. */
  function TruncHalf(n: int): int
  {
    if n >= 0 then n / 2 else -((-n) / 2)
  }

  /** `std::floor((n - 0.1f * state) / 2)`, with exact reals for the float arithmetic. */
  function ShiftedFloorHalf(n: int, state: int): int
  {
    ((n as real - 0.1 * state as real) / 2.0).Floor
  }

  /**
   * The floor trick reduces to integer floor division: a positive strength
   * moves the coordinate down by one before halving, a negative one does not.
   */
  lemma ShiftedFloorHalfRule(n: int, state: int)
    requires 0 < state < 10 || -10 < state < 0
    ensures ShiftedFloorHalf(n, state) == (if state > 0 then n - 1 else n) / 2
  {
    var k := (if state > 0 then n - 1 else n) / 2;
    var r := (n as real - 0.1 * state as real) / 2.0;
    assert k as real <= r < k as real + 1.0;
  }

  /** The segment cell that receives the segment of half-position p with strength state. */
  function Bucket(axis: Axis, p: Cell, state: int): Cell
  {
    match axis
    case Horizontal => Cell(TruncHalf(p.x), ShiftedFloorHalf(p.y, state))
    case Vertical => Cell(ShiftedFloorHalf(p.x, state), TruncHalf(p.y))
  }

  /** The segment of half-position p: endpoints swapped iff state == -1. */
  function SegmentAt(axis: Axis, p: Cell, state: int): Segment
  {
    var (a, b) := match axis
      case Horizontal => (Point(12 * p.x, 12 * p.y), Point(12 * p.x + 12, 12 * p.y))
      case Vertical => (Point(12 * p.x, 12 * p.y + 12), Point(12 * p.x, 12 * p.y));
    if state == -1 then Linear(b, a) else Linear(a, b)
  }

  /** Different positions give different segments. */
  lemma SegmentAtInjective(axis: Axis, p: Cell, s: int, q: Cell, t: int)
    requires SegmentAt(axis, p, s) == SegmentAt(axis, q, t)
    ensures p == q
  {
  }

  /** The segments the pass over the positions `ps` appends to bucket b, in visiting order. */
  function Owned(axis: Axis, strength: map<Cell, int>, ps: seq<Cell>, b: Cell): seq<Segment>
  {
    if ps == [] then []
    else
      var p := ps[|ps| - 1];
      var s := GetOr(strength, p, 0);
      Owned(axis, strength, ps[..|ps| - 1], b) +
      (if s != 0 && Bucket(axis, p, s) == b then [SegmentAt(axis, p, s)] else [])
  }

  /**
   * Each position with nonzero strength puts its segment exactly once into
   * exactly one bucket, Bucket(axis, p, s), and nowhere else.
   */
  lemma {:induction false} OwnedOnce(axis: Axis, strength: map<Cell, int>, ps: seq<Cell>, p: Cell, b: Cell)
    requires Distinct(ps)
    requires GetOr(strength, p, 0) != 0
    ensures var s := GetOr(strength, p, 0);
      multiset(Owned(axis, strength, ps, b))[SegmentAt(axis, p, s)]
      == if p in ps && Bucket(axis, p, s) == b then 1 else 0
  {
    if ps != [] {
      var init := ps[..|ps| - 1];
      var q := ps[|ps| - 1];
      assert ps == init + [q];
      assert Distinct(init) && q !in init;
      OwnedOnce(axis, strength, init, p, b);
      var s := GetOr(strength, p, 0);
      var t := GetOr(strength, q, 0);
      var seg := SegmentAt(axis, p, s);
      var tail := if t != 0 && Bucket(axis, q, t) == b then [SegmentAt(axis, q, t)] else [];
      assert Owned(axis, strength, ps, b) == Owned(axis, strength, init, b) + tail;
      if t != 0 && SegmentAt(axis, q, t) == seg {
        SegmentAtInjective(axis, q, t, p, s);
      }
      assert multiset(tail)[seg] == if q == p && Bucket(axis, p, s) == b then 1 else 0;
    }
  }

  /** A position with zero strength contributes nothing: every owned segment comes from a nonzero position. */
  lemma {:induction false} OwnedComeFromNonzero(axis: Axis, strength: map<Cell, int>, ps: seq<Cell>, b: Cell, seg: Segment)
    requires seg in Owned(axis, strength, ps, b)
    ensures exists p :: (p in ps && GetOr(strength, p, 0) != 0 &&
      Bucket(axis, p, GetOr(strength, p, 0)) == b && seg == SegmentAt(axis, p, GetOr(strength, p, 0)))
  {
    var init := ps[..|ps| - 1];
    var q := ps[|ps| - 1];
    if seg in Owned(axis, strength, init, b) {
      OwnedComeFromNonzero(axis, strength, init, b, seg);
      var p :| p in init && GetOr(strength, p, 0) != 0 &&
        Bucket(axis, p, GetOr(strength, p, 0)) == b && seg == SegmentAt(axis, p, GetOr(strength, p, 0));
      assert p in ps;
    } else {
      assert q in ps;
    }
  }

  /**
   * When the strengths are those of a tile grid, the bucket of every nonzero
   * position is the tile cell whose contribution made it nonzero, so it lies
   * inside the grid (and inside the 45 x 26 segment grid).
   */
  lemma OwnerIsTile(axis: Axis, tiles: map<Cell, int>, p: Cell)
    requires forall c :: c in tiles ==> InTileGrid(c)
    requires Total(Strength, axis, tiles, p) != 0
    ensures InTileGrid(Bucket(axis, p, Total(Strength, axis, tiles, p)))
  {
    var s := Total(Strength, axis, tiles, p);
    StrengthBounded(axis, tiles, tiles.Keys, p);
    ShareBounds(axis, tiles, tiles.Keys, p);
    ShiftedFloorHalfRule(if axis == Horizontal then p.y else p.x, s);
    var cs := Covering(axis, p);
    if |cs| == 2 && s > 0 {
      assert cs[1] in tiles;
    } else {
      assert cs[0] in tiles;
    }
  }

  /** Every bucket a tile grid's strengths fill lies inside the tile grid. */
  lemma {:induction false} OwnedInRange(axis: Axis, tiles: map<Cell, int>, strength: map<Cell, int>, ps: seq<Cell>, b: Cell)
    requires forall c :: c in tiles ==> InTileGrid(c)
    requires forall q :: q in ps ==> GetOr(strength, q, 0) == Total(Strength, axis, tiles, q)
    requires Owned(axis, strength, ps, b) != []
    ensures InTileGrid(b)
  {
    var init := ps[..|ps| - 1];
    var q := ps[|ps| - 1];
    if Owned(axis, strength, init, b) != [] {
      OwnedInRange(axis, tiles, strength, init, b);
    } else {
      var s := GetOr(strength, q, 0);
      assert s != 0 && Bucket(axis, q, s) == b;
      OwnerIsTile(axis, tiles, q);
    }
  }

  /** The segment lists segs after the pass over the positions `ps` appended each nonzero position's segment to its bucket. */
  function Emitted(axis: Axis, strength: map<Cell, int>, ps: seq<Cell>, segs: map<Cell, seq<Segment>>): map<Cell, seq<Segment>>
  {
    if ps == [] then segs
    else
      var prev := Emitted(axis, strength, ps[..|ps| - 1], segs);
      var p := ps[|ps| - 1];
      var s := GetOr(strength, p, 0);
      if s != 0 then prev[Bucket(axis, p, s) := GetOr(prev, Bucket(axis, p, s), []) + [SegmentAt(axis, p, s)]] else prev
  }

  /** The pass over one more position. */
  lemma EmittedStep(axis: Axis, strength: map<Cell, int>, ps: seq<Cell>, i: int, next: int, segs: map<Cell, seq<Segment>>,
                    cur: map<Cell, seq<Segment>>, s: int)
    requires 0 <= i < |ps| && next == i + 1 && s == GetOr(strength, ps[i], 0)
    requires cur == Emitted(axis, strength, ps[..i], segs)
    ensures Emitted(axis, strength, ps[..next], segs) ==
      if s != 0 then cur[Bucket(axis, ps[i], s) := GetOr(cur, Bucket(axis, ps[i], s), []) + [SegmentAt(axis, ps[i], s)]] else cur
  {
    assert ps[..next][..i] == ps[..i];
  }

  /**
   * After the pass each bucket holds its earlier list followed by exactly the
   * segments it owns, in visiting order; a cell gains an entry only when it
   * owns a segment.
   */
  lemma {:induction false} EmittedMeaning(axis: Axis, strength: map<Cell, int>, ps: seq<Cell>, segs: map<Cell, seq<Segment>>, b: Cell)
    ensures GetOr(Emitted(axis, strength, ps, segs), b, []) == GetOr(segs, b, []) + Owned(axis, strength, ps, b)
    ensures b in Emitted(axis, strength, ps, segs) <==> b in segs || Owned(axis, strength, ps, b) != []
  {
    if ps == [] {
      assert GetOr(segs, b, []) + [] == GetOr(segs, b, []);
    } else {
      var init := ps[..|ps| - 1];
      EmittedMeaning(axis, strength, init, segs, b);
      var p := ps[|ps| - 1];
      var s := GetOr(strength, p, 0);
      if s != 0 && Bucket(axis, p, s) == b {
        assert GetOr(segs, b, []) + Owned(axis, strength, ps, b) ==
          (GetOr(segs, b, []) + Owned(axis, strength, init, b)) + [SegmentAt(axis, p, s)];
      } else {
        assert Owned(axis, strength, ps, b) == Owned(axis, strength, init, b) + [];
      }
    }
  }

  // ---- Sloped and arc segments (lines 276-294) ----

  /** Offset a table point by the tile's pixel origin (24x, 24y). */
  function Offset(q: Point, c: Cell): Point
  {
    Point(24 * c.x + q.x, 24 * c.y + q.y)
  }

  /** The sloped or arc segment a tile id puts into its own cell. */
  function TileShapes(c: Cell, id: int): seq<Segment>
  {
    (match DiagRow(id)
     case Some((a, b)) => [Linear(Offset(a, c), Offset(b, c))]
     case None => []) +
    (match CircularRow(id)
     case Some(arc) => [Circular(Offset(arc.center, c), arc.quadrant, arc.convex)]
     case None => [])
  }

  /**
   * Ids 6-9 and 18-33 add exactly one linear segment with the tabled
   * endpoints offset by the tile origin, ids 10-17 exactly one arc, others nothing.
   */
  lemma TileShapesExact(c: Cell, id: int)
    ensures (6 <= id <= 9 || 18 <= id <= 33) ==>
      TileShapes(c, id) == [Linear(Offset(DiagRow(id).value.0, c), Offset(DiagRow(id).value.1, c))]
    ensures 10 <= id <= 17 ==>
      var arc := CircularRow(id).value;
      TileShapes(c, id) == [Circular(Offset(arc.center, c), arc.quadrant, arc.convex)]
    ensures !(6 <= id <= 33) ==> TileShapes(c, id) == []
  {
    ShapeTablesDisjoint(id);
  }
}
