# nclone-cpp simulation core in Dafny

A model of the world-building and bookkeeping core of the nclone-cpp N++
simulator, with the properties its code promises proved about the model.

- **Tile geometry builder** (`Simulation::resetMapTileData`, `loadMapTiles`):
  - the 44 x 25 tile dictionary is filled from the map bytes, with its border forced to the full tile;
  - each tile is folded into four half-resolution (89 x 51) dictionaries through the two 12-entry tables (grid edge and segment ortho): edge parity mod 2, signed segment strength by plain addition;
  - the axis-aligned segments are materialised into the 45 x 26 segment buckets;
  - sloped and arc tiles push their own shape into their own cell.
- **Entity record parser and factory** (`loadMapEntities`, `createEntity`):
  - 5-byte records are read from byte 1234 until a zero type byte or the end;
  - the sentinel byte 1233 is rewritten;
  - creation dispatches by type, with the exit door filed directly and its switch returned.
- **Dual-index entity registry** (`resetMapEntityData`, `addEntity`, `removeEntity`): one index by type id, one by cell, both updated in place.
- **Load and reset** (`load`, `reset`): the whole state a map leaves behind, stated as value functions of the map bytes.
- **Tick orchestrator** (`tick`). The calls a tick makes into code outside this model form a trace of events, and the ordering properties are proved over that trace.
- **Logical-collision hooks** of Gold, EntityDoorLocked (and its constructor) and LaunchPad, with the overlap test as an uninterpreted predicate.

Layout:

- `simulation.dfy`: the `Simulation` class, whose dictionaries are `map` fields and whose loops are `while` and `for` loops with invariants.
- `tile_tables.dfy`: the tables.
- `tile_geometry.dfy`: what the tile and segment passes compute, as functions.
- `map_format.dfy`: the byte layout.
- `factory.dfy`: what records create and file.
- `registry.dfy`: the list operations and registry consistency.
- `tick_trace.dfy`: the tick's events.
- `entities.dfy`: the entity and ninja classes.
- `gold.dfy`, `door_locked.dfy`, `launch_pad.dfy`: the hooks.
- `grid.dfy`: the coordinate spaces.
- `wrappers.dfy`: small helpers.

Each loop method is proved against a function of its inputs. What the source promises is proved about those functions as lemmas:

- order independence of the tile pass;
- bit-valued parity;
- strengths in -1..1;
- one segment per nonzero position, in exactly one bucket inside the grid;
- the records' layout;
- creation by type;
- registry consistency;
- the tick's call order.

## Where the code and the documented behaviour differ

The model follows the code in both places.

- Byte 1233 is documented as forced to -1 unless valid. Stored in a `uint8_t`, -1 is 255, so the outcome (1 if it was 1, otherwise 255) is exactly what the documentation says. The only difference is in the code itself: the map is a vector of `uint8_t`, so its `!= -1` test can never fail, and a byte already holding 255 is rewritten to the same value (MapFormat.FixSentinelOutcome).
- One-shot entities are documented as never re-triggering while inactive. Gold's hook does not test its own active flag: called again on an overlap, it counts again (GoldEntity.RunCountsEveryContact). Once-only collection holds only under a guard outside the hook (GoldEntity.GuardedRunCollectsOnce).

## Model

| member | source | states |
|---|---|---|
| TileTables.OrthoTablesKnowSameIds | src/simulation.cpp:27-105 | TILE_GRID_EDGE_MAP and TILE_SEGMENT_ORTHO_MAP both hold exactly the ids 0-37 |
| TileTables.ParityRowsAreBits | src/simulation.cpp:27-65 | every grid-edge entry is 0 or 1, so the parity `%` never sees a negative operand |
| TileTables.StrengthRowsBounded | src/simulation.cpp:67-105 | in every strength row the top/left half edges are -1..0, the bottom/right 0..1 and the middle ones -1..1 |
| TileTables.ShapeTablesDisjoint | src/simulation.cpp:107-137 | ids 6-9 and 18-33 have a sloped segment, ids 10-17 an arc, no id both |
| Grid.TileCellsEnumerate | src/simulation.cpp:150-155 | the x-major walk lists each of the 44 x 25 tile cells exactly once |
| Grid.HalfCellsEnumerate | src/simulation.cpp:183-186 | the x-major walk lists each of the 89 x 51 half-grid positions exactly once |
| Grid.SegmentCellsEnumerate | src/simulation.cpp:174-177 | the x-major walk lists each of the 45 x 26 segment cells exactly once |
| Simulator.Simulation.constructor | src/simulation.cpp:139-142 | frame 0, no ninja, every dictionary empty, the configuration stored |
| Simulator.Simulation.ResetMapTileData | src/simulation.cpp:165-193 | after the reset the segment dictionary has exactly the 45 x 26 cells, all empty; the four half grids have exactly the 89 x 51 positions; horizontal parity is 1 iff y is 0 or 50, vertical parity 1 iff x is 0 or 88, and strengths are 0 |
| Simulator.Simulation.ResetSegmentCells | src/simulation.cpp:167-180 | the segment dictionary holds an empty list for exactly the 45 x 26 cells |
| Simulator.Simulation.ResetHalfGrids | src/simulation.cpp:168-192 | the four half grids hold exactly the 89 x 51 positions with border parity and zero strength |
| Simulator.ResetColumn | src/simulation.cpp:183-192 | one column x of the reset extends the visited prefix of all four dictionaries, each value its reset value |
| Simulator.ResetLayerIs | src/simulation.cpp:183-192 | a dictionary with exactly the half-grid keys and their reset values is the reset layer |
| Simulator.EmptySegmentsIs | src/simulation.cpp:174-180 | a dictionary of empty lists on exactly the segment cells is the reset segment dictionary |
| Simulator.Simulation.FillTiles | src/simulation.cpp:215-236 | the tile dictionary ends with exactly the 44 x 25 cells: 1 on the border, and cell (x+1, y+1) holding byte 184 + x + 42y |
| Simulator.Simulation.FillInterior | src/simulation.cpp:215-224 | interior cell (x+1, y+1) takes byte 184 + x + 42y; other keys are kept |
| Simulator.Simulation.FillBorder | src/simulation.cpp:227-236 | every border cell becomes 1; other keys are kept |
| Simulator.FillColumn | src/simulation.cpp:218-224 | one column of the interior loop extends the filled prefix by its 23 cells |
| Simulator.FillBorderRows | src/simulation.cpp:227-231 | rows 0 and 24 are 1 and exist; every other key is kept with its value |
| Simulator.FillBorderColumns | src/simulation.cpp:232-236 | columns 0 and 43 are 1 and exist; every other key is kept with its value |
| Simulator.GridTilesIs | src/simulation.cpp:215-236 | a dictionary with exactly the grid's cells and their ids is the loaded tile dictionary |
| Simulator.BumpEntry | src/simulation.cpp:259-260 | one read-modify-write (a missing key reads 0) applies one more row entry |
| Simulator.HorizontalLine | src/simulation.cpp:254-262 | one y line of the horizontal loop applies row entries 2y and 2y + 1 |
| Simulator.HorizontalRows | src/simulation.cpp:254-262 | the horizontal loop applies entries 0-5 of the row, in order |
| Simulator.VerticalLine | src/simulation.cpp:265-273 | one x column of the vertical loop applies entries 6 + 2x and 7 + 2x |
| Simulator.VerticalRows | src/simulation.cpp:265-273 | the vertical loop applies entries 6-11 of the row, in order |
| Simulator.TileRows | src/simulation.cpp:245-274 | one tile bumps every position of a layer by exactly its Contribution, and leaves the map unchanged when either orthogonal table lacks its id |
| Simulator.NoRowsNoContribution | src/simulation.cpp:245-248 | an id either orthogonal table lacks contributes 0 everywhere |
| Simulator.Simulation.AccumulateTile | src/simulation.cpp:241-294 | one tile adds its contribution to each of the four half grids and its shapes to its own cell; the grids keep their shape |
| Simulator.Simulation.AddTileShapes | src/simulation.cpp:276-294 | the sloped segment, then the arc, of the tile's id are pushed onto the tile's own cell list |
| Simulator.Simulation.ShapedTouches | src/simulation.cpp:258-269 | every position a grid tile writes to is already a key of each half grid |
| Simulator.Simulation.ProcessTiles | src/simulation.cpp:239-295 | after visiting the tiles in any order that lists each once, each half grid is its start plus the contributions of all tiles, and each cell's list has its own tile's shapes |
| Simulator.Simulation.VisitedAll | src/simulation.cpp:239-295 | visiting an order listing every tile once sums exactly all tiles in |
| Simulator.Simulation.LoadMapTiles | src/simulation.cpp:212-338 | the tile dictionary is the grid of the map bytes; the half grids are their previous values plus all tile contributions; the segment lists gain the tile shapes, then the horizontal and then the vertical segments |
| Simulator.Simulation.SumAndEmit | src/simulation.cpp:239-337 | the tile pass then both segment passes, for the tiles in place |
| Simulator.EmitPass | src/simulation.cpp:298-337 | a segment pass appends, x-major, each nonzero position's segment to its bucket |
| Simulator.Simulation.LoadTiles | src/simulation.cpp:195-199 | the map bytes are stored, and the tile dictionaries are those the bytes determine from the reset state |
| Simulator.SummedResetAt | src/simulation.cpp:183-274 | after loading, each half grid has exactly the 89 x 51 positions, each its reset value bumped (mod 2 for parity) by the contributions of the tiles covering it |
| Simulator.LoadedSegmentsAt | src/simulation.cpp:276-337 | after loading, the segment dictionary has exactly the 45 x 26 cells, each holding its tile's shapes, then the horizontal segments it owns, then the vertical ones |
| TileGeometry.RowIndex | src/simulation.cpp:254-273 | horizontal positions take entries 0-5 and vertical positions 6-11 |
| TileGeometry.RowEntriesNext | src/simulation.cpp:254-273 | counting one more row entry adds it only at the position it belongs to |
| TileGeometry.RowIndexPosition | src/simulation.cpp:256-269 | entry 2y + x of a tile goes to exactly (2t.x + x, 2t.y + y) horizontally, and entry 6 + 2x + y to that position vertically |
| TileGeometry.EntryPositionIndex | src/simulation.cpp:256-269 | each of an axis's six entries belongs to exactly one position |
| TileGeometry.HorizontalPosition | src/simulation.cpp:258 | horizontal loop step (x, y) writes position (2t.x + x, 2t.y + y) |
| TileGeometry.VerticalPosition | src/simulation.cpp:269 | vertical loop step (x, y) writes position (2t.x + x, 2t.y + y) |
| TileGeometry.AppliedStep | src/simulation.cpp:259-271 | applying entry n writes its own position bumped by the entry and nothing else |
| TileGeometry.AppliedMeaning | src/simulation.cpp:254-273 | the entry-by-entry updates equal the position-by-position description |
| TileGeometry.AppliedAllStep | src/simulation.cpp:259-271 | in the position-by-position description, entry n changes only its own position |
| TileGeometry.AppliedAllNone | src/simulation.cpp:254-273 | with no entry applied the map is unchanged |
| TileGeometry.WrittenStep | src/simulation.cpp:258-269 | each entry adds exactly its own position to those written |
| TileGeometry.TouchesHalfGrid | src/simulation.cpp:258-269 | every position a grid tile writes is a key of a map holding the half grid |
| TileGeometry.BumpTwice | src/simulation.cpp:259-271 | bumping by a then d equals bumping by a + d, for mod-2 parity and for plain strength |
| TileGeometry.ContributionByRows | src/simulation.cpp:245-273 | with both rows known, a tile's contribution is its full row entry at each touched position, and the parity row holds bits |
| TileGeometry.WithContribution | src/simulation.cpp:254-273 | adding a tile keeps the keys, and parity stays bit-valued |
| TileGeometry.AppliedContribution | src/simulation.cpp:254-273 | the six updates of an axis leave every position bumped by exactly its contribution |
| TileGeometry.AppliedAllContribution | src/simulation.cpp:254-273 | the same for the position-by-position description |
| TileGeometry.ContributionAt | src/simulation.cpp:254-273 | at one position, the contribution is the row entry of its index, or nothing when the tile does not reach it |
| TileGeometry.NoRowsUnchanged | src/simulation.cpp:248 | a tile whose id either orthogonal table lacks leaves the layer as it was |
| TileGeometry.Covering | src/simulation.cpp:258-269 | at most two tiles reach any half-grid position, and they are distinct |
| TileGeometry.CoveringComplete | src/simulation.cpp:258-269 | a tile reaches p exactly when it is one of p's covering cells |
| TileGeometry.AccumulatedStep | src/simulation.cpp:239-274 | processing one more tile adds exactly its contribution, whichever tiles came before |
| TileGeometry.AccumulatedStepAll | src/simulation.cpp:239-274 | the same at every position at once |
| TileGeometry.Summed | src/simulation.cpp:239-274 | summing keeps the keys, and parity stays a bit |
| TileGeometry.SummedNone | src/simulation.cpp:239-274 | before any tile the map is as it started |
| TileGeometry.SummedStep | src/simulation.cpp:239-274 | adding one more tile's contribution to the sum gives the sum over one more tile |
| TileGeometry.SummedStepAt | src/simulation.cpp:239-274 | SummedStep at one position |
| TileGeometry.WithContributionAt | src/simulation.cpp:259-271 | one position after a tile is added: its value bumped by the tile's contribution |
| TileGeometry.SummedAt | src/simulation.cpp:259-271 | a summed position is its start bumped by the sum of the processed tiles' contributions: mod 2 for parity, plain for strength |
| TileGeometry.ShapesPlaced | src/simulation.cpp:276-294 | placing shapes adds exactly the cells of tiles that have a shape |
| TileGeometry.PlacedStep | src/simulation.cpp:276-294 | pushing one more tile's shapes gives the placement over one more tile, in any order |
| TileGeometry.PlacedStepAt | src/simulation.cpp:276-294 | PlacedStep at one cell |
| TileGeometry.PlacedNone | src/simulation.cpp:276-294 | with no tile processed the lists are as they started |
| TileGeometry.VisitedStep | src/simulation.cpp:239-274 | visiting one more tile of the order adds its contribution |
| TileGeometry.VisitedMeaning | src/simulation.cpp:239-274 | visiting any order that lists no tile twice sums exactly the listed tiles: the result is independent of the visiting order |
| TileGeometry.PlacedVisitedStep | src/simulation.cpp:276-294 | visiting one more tile pushes its shapes |
| TileGeometry.PlacedVisitedMeaning | src/simulation.cpp:276-294 | visiting any duplicate-free order places the shapes of exactly the listed tiles, independent of order |
| TileGeometry.UnknownIdAddsNothing | src/simulation.cpp:245-248 | ids outside 0-37 (38-255 among bytes) add nothing to any layer |
| TileGeometry.TouchedInHalfGrid | src/simulation.cpp:258-269 | every half-grid index a grid tile writes lies within 89 x 51 |
| TileGeometry.ShareBounds | src/simulation.cpp:67-105 | at a shared position, the first covering tile brings -1..0 and the second 0..1 |
| TileGeometry.StrengthBounded | src/simulation.cpp:67-105 | an accumulated strength is always -1, 0 or 1, so `state == -1` is the only negative case |
| TileGeometry.ParityStepIsBit | src/simulation.cpp:259-270 | the operand of the parity `%` is never negative, so C++'s truncating remainder and the model's agree |
| TileGeometry.ShiftedFloorHalfRule | src/simulation.cpp:303-325 | `floor((n - 0.1*state) / 2)` equals `(n - 1) div 2` for positive strength and `n div 2` for negative, for 0 < abs(state) < 10, which covers every strength the grid can hold (TileGeometry.StrengthBounded) |
| TileGeometry.SegmentAtInjective | src/simulation.cpp:306-333 | different positions give different segments |
| TileGeometry.OwnedOnce | src/simulation.cpp:298-337 | a position with nonzero strength puts its segment exactly once into exactly its bucket, and into no other |
| TileGeometry.OwnedComeFromNonzero | src/simulation.cpp:298-337 | every segment a bucket receives comes from a nonzero-strength position that maps to that bucket |
| TileGeometry.OwnerIsTile | src/simulation.cpp:298-337 | the bucket of every nonzero position of a tile grid's strengths is a tile cell inside the grid |
| TileGeometry.OwnedInRange | src/simulation.cpp:298-337 | every bucket a tile grid's strengths fill lies inside the grid, hence inside 45 x 26 |
| TileGeometry.EmittedStep | src/simulation.cpp:298-316 | the pass over one more position appends its segment to its bucket when its strength is nonzero |
| TileGeometry.EmittedMeaning | src/simulation.cpp:298-337 | after a pass each bucket holds its earlier list followed by exactly the segments it owns, in visiting order; a cell gains a key only when it owns a segment |
| TileGeometry.TileShapesExact | src/simulation.cpp:276-294 | ids 6-9 and 18-33 add exactly one linear segment with the tabled endpoints offset by (24x, 24y), ids 10-17 exactly the tabled arc, all others nothing |
| MapFormat.StoreByte | src/simulation.cpp:348 | storing an int into a uint8_t keeps it modulo 256 |
| MapFormat.FixSentinelOutcome | src/simulation.cpp:346-349 | byte 1233 ends as 1 when it was 1 and as 255 otherwise, and the fix is idempotent |
| MapFormat.WithSentinelFixed | src/simulation.cpp:346-349 | only byte 1233 changes |
| MapFormat.LittleEndian | src/simulation.cpp:359-360 | `lo + (hi << 8)` is the 16-bit value with low byte lo and high byte hi |
| MapFormat.RecordsLayout | src/simulation.cpp:352-372 | record k of the stream is the one at byte 1234 + 5k, with nonzero type; the stream ends at the end of the map or at a zero type byte; a record creating nothing still advances by 5 |
| MapFormat.RecordsStep | src/simulation.cpp:353-371 | a nonzero type byte heads the rest of the stream, five bytes on |
| MapFormat.SentinelLeavesRecords | src/simulation.cpp:346-353 | forcing the sentinel changes neither the records nor their bounds |
| Factory.CreatedDispatch | src/simulation.cpp:476-524 | only types 1, 2, 3, 5, 6 and 8 create an entity, each of its own type and position except type 3, which yields the exit switch and files an Exit |
| Factory.TypePushesHaveType | src/simulation.cpp:534 | a type list only receives entities of its type |
| Factory.CellPushesHaveCell | src/simulation.cpp:535 | a cell list only receives created entities of that cell, and never an Exit |
| Factory.ExitsPairWithSwitches | src/simulation.cpp:488-501 | the type-3 and type-4 lists grow alike: every exit door comes with its switch |
| Factory.CreatedFiledByType | src/simulation.cpp:364-368 | each type list receives exactly the created entities of its type, plus, for type 3, the Exits |
| Factory.TypeStepFiled | src/simulation.cpp:364-368 | CreatedFiledByType for one record |
| Factory.FilterAppend | src/simulation.cpp:364-368 | filtering by type works piecewise |
| Factory.FiledInfos | src/simulation.cpp:534-535 | filing under k appends to list k and to no other |
| Factory.TypesLoadedStep | src/simulation.cpp:364-371 | one more record extends the type lists by its pushes |
| Factory.CellsLoadedStep | src/simulation.cpp:364-371 | one more record extends the cell lists by its push |
| Factory.CreatedAllStep | src/simulation.cpp:364-368 | the created entities grow by the record's creation |
| Registry.RemoveAll | src/simulation.cpp:548 | the erase-remove result has no x, only elements of the list, and keeps every other element |
| Registry.RemoveAllAppend | src/simulation.cpp:548 | removal works piecewise, so the survivors keep their order |
| Registry.RemoveAllAbsent | src/simulation.cpp:548 | removing something absent changes nothing |
| Registry.RemoveAllCounts | src/simulation.cpp:548 | every other element keeps its number of occurrences; x has none |
| Registry.PushThenRemove | src/simulation.cpp:526-553 | removing what was just pushed onto a list not holding it restores the list |
| Registry.RemoveAllTwice | src/simulation.cpp:548 | removal is idempotent |
| Registry.UnfileFiled | src/simulation.cpp:526-553 | removeEntity after addEntity of an entity not yet listed leaves every list as it was |
| EntityRegistry.TypesStayConsistent | src/simulation.cpp:534-548 | filing or removing under an entity's own type keeps every type list holding only its own type |
| EntityRegistry.CellsStayConsistent | src/simulation.cpp:535-552 | filing or removing under an entity's own cell keeps every cell list holding only its own cell |
| Simulator.Simulation.ResetMapEntityData | src/simulation.cpp:144-163 | every one of the 44 x 25 cells, and nothing else, has an empty list, and every type 1-28 has an empty list |
| Simulator.Simulation.AddEntity | src/simulation.cpp:526-536 | the entity is appended to the end of its type list and of its cell list, every other list unchanged; null changes nothing; consistency is kept |
| Simulator.Simulation.RemoveEntity | src/simulation.cpp:538-553 | every occurrence is erased from its type list and its cell list, order kept; null changes nothing; consistency is kept |
| Simulator.Simulation.CreateEntity | src/simulation.cpp:476-524 | returns a fresh entity exactly for types 1, 2, 3, 5, 6 and 8, as its constructor leaves it; for type 3 a fresh Exit at the record's position is filed in list 3 and the returned switch's parent is that Exit; other types leave the registry unchanged |
| Simulator.Simulation.LoadRecord | src/simulation.cpp:355-371 | one record: its type lists and cell lists gain exactly what it creates, and the created entity is logged once |
| Simulator.TypesAfterRecord | src/simulation.cpp:364-368 | the Exit filed first and the created entity filed last extend each type list by the record's pushes |
| Simulator.CellsAfterRecord | src/simulation.cpp:364-368 | the created entity extends its cell's list, and only that one |
| Simulator.LoadingAdvance | src/simulation.cpp:353-371 | one record registered and logged advances the loop invariant by five bytes |
| Simulator.LoadingDone | src/simulation.cpp:353-372 | when the loop stops it has decoded every record of the stream and logged each created entity once, in order |
| Simulator.Simulation.LoadRecords | src/simulation.cpp:352-372 | every record of the stream is loaded: the lists hold their start followed by what the records pushed, and the trace logs each created entity once, in order |
| Simulator.Simulation.LoadMapEntities | src/simulation.cpp:340-373 | a fresh ninja; byte 1233 forced; then every record of the stream loaded as in LoadRecords |
| Simulator.LoadedFromReset | src/simulation.cpp:203-210 | records loaded onto the emptied registry leave exactly the map's entities in each list |
| Simulator.Simulation.ReloadEntities | src/simulation.cpp:207-209 | the registry is emptied and rebuilt from the map's records alone |
| Simulator.Simulation.Reset | src/simulation.cpp:203-210 | frame 0, collision log cleared, a fresh ninja, the registry rebuilt from the map alone, the tile dictionaries untouched |
| Simulator.Simulation.Load | src/simulation.cpp:195-201 | after load, every tile dictionary and every registry list is a function of the map bytes alone, whatever came before |
| Simulator.GatherList | src/simulation.cpp:393-406 | one type list's active movable and active thinkable entities are appended, in order |
| Simulator.Gather | src/simulation.cpp:387-407 | the snapshot holds the active movable and active thinkable entities in registry order |
| Simulator.MoveAll | src/simulation.cpp:410-413 | one move per snapshotted movable entity, in order |
| Simulator.ThinkAll | src/simulation.cpp:416-419 | one think per snapshotted thinkable entity, in order |
| Simulator.LogAll | src/simulation.cpp:463-466 | one logPosition per snapshotted movable entity, in order |
| Simulator.CollisionRounds | src/simulation.cpp:431-435 | four rounds of collideVsObjects then collideVsTiles |
| Simulator.AfterPhysicsCalls | src/simulation.cpp:447-473 | death pin, then logging, then the cache clear, each exactly under its condition |
| Simulator.Simulation.PhysicsBlock | src/simulation.cpp:422-445 | integrate, preCollision, four collision rounds, postCollision, think, and updateGraphics iff animation is on; the ninja ends as the given outcome (inputs kept), and the collision hooks' setActive calls are applied |
| Simulator.ApplyFlags | src/simulation.cpp:431-435 | the setActive calls of the collision rounds, made in order: each touched entity ends with its last call's flag, and no other entity or field changes |
| Simulator.TickEventsJoin | src/simulation.cpp:409-473 | the tick's stages together make up its calls |
| Simulator.Simulation.Tick | src/simulation.cpp:375-474 | the frame is counted and the inputs fed; a ninja in state 9 keeps every other field, any other ends as the physics outcome; entity flags change only through the physics block's setActive calls; the calls are exactly the tick's events over the snapshot taken before any entity step (so entities deactivated mid-tick are still logged), with physics iff the ninja exists and its state is not 9; Valid is kept |
| TickTrace.ListsUpToMembers | src/simulation.cpp:391-393 | the gather walks exactly the lists under the keys 1-28 |
| TickTrace.ActiveMovableExact | src/simulation.cpp:395-401 | exactly the active movable entities are kept, each as often as listed |
| TickTrace.ActiveThinkableExact | src/simulation.cpp:395-405 | exactly the active thinkable entities are kept, each as often as listed |
| TickTrace.ActiveSnoc | src/simulation.cpp:395-405 | one more entity is kept exactly when active and movable (thinkable) |
| TickTrace.ActiveAppend | src/simulation.cpp:391-407 | gathering two lists one after the other gathers each in turn |
| TickTrace.Moves | src/simulation.cpp:410-413 | event i is the move of entity i |
| TickTrace.Thinks | src/simulation.cpp:416-419 | event i is the think of entity i |
| TickTrace.LogPositions | src/simulation.cpp:463-466 | event i is the logPosition of entity i |
| TickTrace.LogPositionsLog | src/simulation.cpp:463-466 | logging a list logs its descriptions, piecewise |
| TickTrace.LogPositionsCount | src/simulation.cpp:463-466 | the logging loop calls logPosition on each entity exactly as often as the list holds it |
| TickTrace.LoggingLogs | src/simulation.cpp:458-467 | the ninja's log call adds no logPosition: the logging block logs each gathered entity as often as gathered |
| TickTrace.AfterPhysicsLogs | src/simulation.cpp:447-473 | after the physics block, each gathered entity is logged as often as gathered when logging is on, never otherwise |
| TickTrace.SnapshotLogged | src/simulation.cpp:375-474 | a tick logs each gathered movable entity exactly as often as it was gathered when logging is on, and none otherwise, whatever happened to its active flag after the gather |
| TickTrace.FlagAfterLast | src/simulation.cpp:431-435 | after a sequence of setActive calls, an untouched entity keeps its flag and a touched one holds the value of its last call |
| TickTrace.CollisionPassesShape | src/simulation.cpp:431-435 | round k is collideVsObjects at 2k and collideVsTiles at 2k + 1 |
| TickTrace.CollisionPassesOnlyCollide | src/simulation.cpp:431-435 | the rounds contain nothing but the two collision calls |
| TickTrace.CollisionPassesMembers | src/simulation.cpp:431-435 | every call of the rounds is a collision call |
| TickTrace.PhysicsStepsShape | src/simulation.cpp:428-443 | the physics block in order, exactly four rounds, and updateGraphics occurs iff animation is on |
| TickTrace.NoEntityStepsLater | src/simulation.cpp:422-473 | after the entity steps no entity moves or thinks |
| TickTrace.EntityStepsFirst | src/simulation.cpp:409-428 | every move precedes every think, and every entity step precedes integrate |
| TickTrace.NoPhysicsAfter | src/simulation.cpp:447-473 | integrate does not occur after the physics block |
| TickTrace.PhysicsRunsExactly | src/simulation.cpp:422-445 | integrate occurs iff physics runs, and then the whole block sits right after the entity steps |
| TickTrace.CachesClearedEveryHundred | src/simulation.cpp:470-473 | the caches are cleared iff frame % 100 == 0, and then as the last call |
| Entities.Entity.constructor | src/simulation.cpp:483-517 | an entity keeps its type, variant, position and class constants, starts active with nothing logged |
| Entities.Infos | src/simulation.cpp:534-535 | the description list matches the entity list position by position |
| Entities.Ninja.constructor | src/simulation.cpp:343 | a fresh ninja with every tracked field zero |
| GoldEntity.LogicalCollision | src/entities/gold.cpp:11-25 | the gold and the ninja change exactly as one Collide step with the overlap of the gold's and the ninja's circles |
| GoldEntity.CollideEffect | src/entities/gold.cpp:14-24 | winning state or no overlap: nothing changes; otherwise goldCollected + 1, the gold inactive and one collision logged, no other ninja field touched |
| GoldEntity.RunCountsEveryContact | src/entities/gold.cpp:11-25 | called on every contact, the hook adds one gold per contact: it does not guard on its own active flag |
| GoldEntity.GuardedRunCollectsOnce | src/entities/gold.cpp:11-25 | guarded by the active flag outside the hook, gold is collected at most once, and surely when active, not winning and touched |
| DoorLockedEntity.NewDoorLocked | src/entities/door_locked.cpp:5-9 | a type-6 door with its body and switch positions passed through unchanged |
| DoorLockedEntity.LogicalCollision | src/entities/door_locked.cpp:11-25 | the door and ninja change as one Collide step, with the overlap computed at the switch position and the door's radius |
| DoorLockedEntity.RunOpensOnce | src/entities/door_locked.cpp:11-25 | over any call sequence, doorsOpened rises by at most 1, exactly when the door went inactive; an inactive door stays as it is; no other ninja field changes; one changeState(false) |
| LaunchPadEntity.LogicalCollision | src/entities/launch_pad.cpp:10-23 | no ninja or an invalid target: nothing; on overlap the boost vector is set from the orientation and the buffer to 0 |
| LaunchPadEntity.CollideTouchesBoostOnly | src/entities/launch_pad.cpp:16-21 | only the three boost fields change, and a second call changes nothing more |
| LaunchPadEntity.RunBoostsOnce | src/entities/launch_pad.cpp:10-23 | any call sequence ends as one boost if any call fired, otherwise with the ninja unchanged |

## Left out

- Types outside this model:
  - ExitSwitch's and LaunchPad's type ids live in headers outside this model; they are taken as 4 and 10.
  - The per-class constants (RADIUS, isMovable, isThinkable) and Ninja::RADIUS are parameters of the Simulation (`classes`, `ninjaRadius`).
  - The constructors of the other entity classes (ToggleMine, Exit, ExitSwitch, DoorRegular, DoorTrap) are not part of this model. Each is modelled as storing its arguments.
- The Ninja constructor is not part of this model: its tracked fields are taken to start at zero.
- Entities.CellOf: Entity::getCell is declared outside this model. It is taken to be (floor(x / 24), floor(y / 24)), without clamping to the 44 x 25 grid. A record position can reach 6553.5, so an entity can be filed under a cell key outside the grid. A clamping getCell would file it under a border cell instead. Every cell-list contract (AddEntity, RemoveEntity, CellPushes, CellsConsistent, EntitiesFrom) rests on this choice.
- Entities.Entity.constructor: the Entity base constructor is declared outside this model. Entities are taken to start active, with no changeState or logCollision call recorded.
- Simulator.Simulation.Tick:
  - the ninja's physics internals are not modelled (integrate, preCollision, collideVsObjects, collideVsTiles, postCollision, think, updateGraphics); the calls are trace events;
  - the physics block's effect is given: `afterPhysics` is the ninja it leaves (any position, state, gold, doors and boost), and `flagChanges` are the setActive calls the logical-collision hooks make on entities during the collision rounds;
  - the hooks' changeState and logCollision calls on entities during the tick are not applied to the entities (the hook models in gold and door_locked state them; LaunchPad's hook makes neither call);
  - entity move() and think() are assumed to touch neither the ninja nor any entity's active flag. So the physics test, made in the source after those calls (line 422), reads the state the ninja had before them;
  - setAnimFrame/setAnimState and the animation values are reduced to the death-pin event;
  - frame-counter overflow is not modelled: `frame` is unbounded, and so are the ninja's goldCollected and doorsOpened counters.
- Entity move(), think(), logPosition(), ninja->log() and Physics::clearCaches are trace events.
- logCollision() is not a trace event. The Gold and DoorLocked hook models count its calls in `Entity.collisionsLogged`, and Tick does not record it. The collision log it fills is not modelled beyond being cleared by reset.
- Physics::overlapCircleVsCircle, Physics::mapOrientationToVector and Ninja::isValidTarget are not part of this model. They are uninterpreted parameters.
- Floating point: positions (`/ 10.0f`), coordinates and the `0.1f * state` shift are exact reals, with no rounding.
- Iteration order:
  - the order of tileDic's loop is a parameter `order` (any listing of the cells, each once), with the grids proved independent of it;
  - the segment passes visit the half grids x-major (ascending (x, y)), the order of a std::map keyed by pairs, whose declaration is not part of this model;
  - entityDic is walked by ascending key.
- Simulator.Simulation.Gather: the tick gathers before counting the frame and feeding the inputs. Those touch only the frame and the ninja, which the gathering does not read, so the result is the same.
- Unchecked reads past the end of the map are preconditions, as undefined behaviour there is not modelled:
  - size at least 1234 (line 215 needs 1150, line 346 needs 1234);
  - every read of the record loop (lines 359-362) inside the buffer;
  - the switch bytes of createEntity (lines 495-497, 508-509, 515-516) inside the buffer.
- Simulator.Simulation.CreateEntity: the `mode` argument is unused, as in the source.
- src/renderer.hpp and src/main.cpp (drawing and the window loop) and the body of DoorTrap's logicalCollision (src/entities/door_trap.hpp holds only a declaration) are not part of this model.
