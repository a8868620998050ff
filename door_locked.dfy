/** EntityDoorLocked: a door that opens for good when the ninja touches its switch. */
module DoorLockedEntity {
  import opened Entities

  /** The constructor: a type-6 door keeping its body and switch positions as given. */
  method NewDoorLocked(x: real, y: real, orientation: int, swX: real, swY: real, cls: EntityClass)
    returns (door: Entity)
    ensures fresh(door)
    ensures door.Info() == EntityInfo(DOOR_LOCKED, DoorLocked(orientation, swX, swY), x, y)
    ensures door.radius == cls.radius && door.movable == cls.movable && door.thinkable == cls.thinkable
    ensures door.parent == null && door.active && door.stateChanges == [] && door.collisionsLogged == 0
  {
    door := new Entity(DOOR_LOCKED, DoorLocked(orientation, swX, swY), x, y, cls, null);
  }

  /** What the hook reads and writes. */
  datatype DoorState = DoorState(ninja: NinjaView, active: bool, stateChanges: seq<bool>, logged: nat)

  /** One call of the hook, given whether the switch and the ninja overlap. */
  function Collide(s: DoorState, overlap: bool): DoorState
  {
    if !s.active then s
    else if overlap then
      DoorState(s.ninja.(doorsOpened := s.ninja.doorsOpened + 1), false, s.stateChanges + [false], s.logged + 1)
    else s
  }

  function StateOf(door: Entity, ninja: Ninja): DoorState
    reads door, ninja
  {
    DoorState(ninja.View(), door.active, door.stateChanges, door.collisionsLogged)
  }

  /** The overlap is computed at the switch position, with the door's radius. */
  method LogicalCollision(door: Entity, ninja: Ninja, overlaps: Overlap)
    requires door.kind.DoorLocked?
    modifies door, ninja
    ensures StateOf(door, ninja) ==
      Collide(old(StateOf(door, ninja)),
              overlaps(door.kind.switchX, door.kind.switchY, door.radius, ninja.xpos, ninja.ypos, ninja.radius))
  {
    if !door.active {
      return;
    }
    if overlaps(door.kind.switchX, door.kind.switchY, door.radius, ninja.xpos, ninja.ypos, ninja.radius) {
      door.active := false;
      door.stateChanges := door.stateChanges + [false];
      ninja.doorsOpened := ninja.doorsOpened + 1;
      door.collisionsLogged := door.collisionsLogged + 1;
    }
  }

  /** Successive calls, one per contact flag. */
  function Run(s: DoorState, contacts: seq<bool>): DoorState
    decreases |contacts|
  {
    if contacts == [] then s else Run(Collide(s, contacts[0]), contacts[1..])
  }

  /**
   * However often the hook runs, the door opens at most once: the ninja's
   * door count rises by one exactly when the door went inactive, a closed
   * door stays closed, and an active door opens on the first contact, with a
   * single changeState(false).
   */
  lemma {:induction false} RunOpensOnce(s: DoorState, contacts: seq<bool>)
    ensures var r := Run(s, contacts);
      && r.ninja.doorsOpened == s.ninja.doorsOpened + (if s.active && !r.active then 1 else 0)
      && r.ninja.(doorsOpened := s.ninja.doorsOpened) == s.ninja
      && (r.active ==> s.active)
      && (r.active <==> s.active && true !in contacts)
      && r.stateChanges == s.stateChanges + (if s.active && !r.active then [false] else [])
    decreases |contacts|
  {
    if contacts != [] {
      RunOpensOnce(Collide(s, contacts[0]), contacts[1..]);
      assert contacts == [contacts[0]] + contacts[1..];
    }
  }
}
