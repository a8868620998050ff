/**
 * The entity and ninja objects the core reads and updates: one class Entity
 * whose constant `kind` carries the variant (the subclasses of the source),
 * and the Ninja fields the collision hooks and the tick touch.
 */
module Entities {
  import opened Grid

  /** Entity type ids: entityDic is built with the keys 1-28 (src/simulation.cpp:159-162). */
  type EntityType = t: int | 1 <= t <= 28 witness 1

  const TOGGLE_MINE: EntityType := 1
  const GOLD: EntityType := 2
  const EXIT: EntityType := 3
  /** ExitSwitch::ENTITY_TYPE lives in a header outside this model; the map format numbers it 4. */
  const EXIT_SWITCH: EntityType := 4
  const DOOR_REGULAR: EntityType := 5
  const DOOR_LOCKED: EntityType := 6
  const DOOR_TRAP: EntityType := 8
  /** LaunchPad::ENTITY_TYPE lives in a header outside this model; the map format numbers it 10. */
  const LAUNCH_PAD: EntityType := 10

  /** The entity classes of the core; door kinds keep their switch position beside the body's. */
  datatype Kind =
    | ToggleMine(mineState: int)
    | Gold
    | Exit
    | ExitSwitch
    | DoorRegular(orientation: int, switchX: real, switchY: real)
    | DoorLocked(orientation: int, switchX: real, switchY: real)
    | DoorTrap(orientation: int, switchX: real, switchY: real)
    | LaunchPad(orientation: int)

  /** Per-class constants (RADIUS, isMovable, isThinkable) from headers outside this model. */
  datatype EntityClass = EntityClass(radius: real, movable: bool, thinkable: bool)

  /** What an entity's constructor fixed: its type id, variant and position. */
  datatype EntityInfo = EntityInfo(entityType: EntityType, kind: Kind, x: real, y: real)

  /** Physics::overlapCircleVsCircle(x1, y1, r1, x2, y2, r2), left uninterpreted. */
  type Overlap = (real, real, real, real, real, real) -> bool

  /** The grid cell of a position: 24 units per cell, not clamped to the grid (Entity::getCell is declared outside this model). */
  function CellOf(x: real, y: real): Cell
  {
    Cell((x / 24.0).Floor, (y / 24.0).Floor)
  }

  class Entity {
    const entityType: EntityType
    const kind: Kind
    const xpos: real
    const ypos: real
    const radius: real
    const movable: bool
    const thinkable: bool
    /** For an ExitSwitch, the Exit it belongs to. */
    const parent: Entity?
    var active: bool
    /** The arguments of every changeState call, whose effect is defined outside this model. */
    var stateChanges: seq<bool>
    /** How many times logCollision was called, whose record is kept outside this model. */
    var collisionsLogged: nat

    /** The base constructor is declared outside this model: an entity starts active, with nothing recorded. */
    constructor (entityType: EntityType, kind: Kind, x: real, y: real, cls: EntityClass, parent: Entity?)
      ensures this.entityType == entityType && this.kind == kind && xpos == x && ypos == y
      ensures radius == cls.radius && movable == cls.movable && thinkable == cls.thinkable
      ensures this.parent == parent
      ensures active && stateChanges == [] && collisionsLogged == 0
    {
      this.entityType := entityType;
      this.kind := kind;
      xpos := x;
      ypos := y;
      radius := cls.radius;
      movable := cls.movable;
      thinkable := cls.thinkable;
      this.parent := parent;
      active := true;
      stateChanges := [];
      collisionsLogged := 0;
    }

    function Info(): EntityInfo
    {
      EntityInfo(entityType, kind, xpos, ypos)
    }

    /** getCell(): the cell of the entity's position. */
    function OwnCell(): Cell
    {
      CellOf(xpos, ypos)
    }
  }

  /** The descriptions of a list of entities, in order. */
  function Infos(es: seq<Entity>): (r: seq<EntityInfo>)
    ensures |r| == |es|
    ensures forall i :: 0 <= i < |es| ==> r[i] == es[i].Info()
  {
    seq(|es|, i requires 0 <= i < |es| => es[i].Info())
  }

  lemma InfosAppend(a: seq<Entity>, b: seq<Entity>)
    ensures Infos(a + b) == Infos(a) + Infos(b)
  {
  }

  /** The ninja's fields as a value. */
  datatype NinjaView = NinjaView(
    state: int, xpos: real, ypos: real,
    goldCollected: int, doorsOpened: int,
    xlpBoostNormalized: real, ylpBoostNormalized: real, launchPadBuffer: int,
    horInput: real, jumpInput: int)

  class Ninja {
    const radius: real
    var state: int
    var xpos: real
    var ypos: real
    var goldCollected: int
    var doorsOpened: int
    var xlpBoostNormalized: real
    var ylpBoostNormalized: real
    var launchPadBuffer: int
    var horInput: real
    var jumpInput: int

    /** The Ninja constructor is outside this model: every field starts at zero. */
    constructor (radius: real)
      ensures this.radius == radius
      ensures View() == NinjaView(0, 0.0, 0.0, 0, 0, 0.0, 0.0, 0, 0.0, 0)
    {
      this.radius := radius;
      state, xpos, ypos := 0, 0.0, 0.0;
      goldCollected, doorsOpened := 0, 0;
      xlpBoostNormalized, ylpBoostNormalized, launchPadBuffer := 0.0, 0.0, 0;
      horInput, jumpInput := 0.0, 0;
    }

    function View(): NinjaView
      reads this
    {
      NinjaView(state, xpos, ypos, goldCollected, doorsOpened,
                xlpBoostNormalized, ylpBoostNormalized, launchPadBuffer, horInput, jumpInput)
    }
  }
}
