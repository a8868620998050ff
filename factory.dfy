/**
 * What loading the entity records puts into the two registries, as values:
 * the entity createEntity builds for a record, the Exit it files directly,
 * and the lists of descriptions each type and each cell receives.
 */
module Factory {
  import opened Wrappers
  import opened Grid
  import opened MapFormat
  import opened Entities
  import opened Registry

  /** The switch position of an exit: two raw bytes after the records of all exit doors. */
  function ExitSwitchPos(data: seq<byte>): (real, real)
    requires |data| > EXIT_DOOR_COUNT && SwitchBytesPresent(data, 3)
  {
    (data[ExitSwitchIndex(data)] as real, data[ExitSwitchIndex(data) + 1] as real)
  }

  /** The switch position of a locked or trap door: the fixed bytes 1240 and 1241. */
  function DoorSwitchPos(data: seq<byte>): (real, real)
    requires |data| > ENTITY_DATA_START + 7
  {
    (data[ENTITY_DATA_START + 6] as real, data[ENTITY_DATA_START + 7] as real)
  }

  /** The entity createEntity returns for a record, if any. */
  function Created(r: Record, data: seq<byte>): Option<EntityInfo>
    requires |data| > EXIT_DOOR_COUNT && SwitchBytesPresent(data, r.entityType)
  {
    match r.entityType
    case 1 => Some(EntityInfo(TOGGLE_MINE, ToggleMine(0), r.x, r.y))
    case 2 => Some(EntityInfo(GOLD, Gold, r.x, r.y))
    case 3 => Some(EntityInfo(EXIT_SWITCH, ExitSwitch, ExitSwitchPos(data).0, ExitSwitchPos(data).1))
    case 5 => Some(EntityInfo(DOOR_REGULAR, DoorRegular(r.orientation, r.x, r.y), r.x, r.y))
    case 6 => Some(EntityInfo(DOOR_LOCKED, DoorLocked(r.orientation, DoorSwitchPos(data).0, DoorSwitchPos(data).1), r.x, r.y))
    case 8 => Some(EntityInfo(DOOR_TRAP, DoorTrap(r.orientation, DoorSwitchPos(data).0, DoorSwitchPos(data).1), r.x, r.y))
    case _ => None
  }

  /** The Exit that createEntity files in the type-3 list itself, for an exit record. */
  function ExitPushed(r: Record): Option<EntityInfo>
  {
    if r.entityType == 3 then Some(EntityInfo(EXIT, Exit, r.x, r.y)) else None
  }

  /** Only types 1, 2, 3, 5, 6 and 8 create an entity; each keeps its record's type except the exit, which yields its switch. */
  lemma CreatedDispatch(r: Record, data: seq<byte>)
    requires |data| > EXIT_DOOR_COUNT && SwitchBytesPresent(data, r.entityType)
    ensures Created(r, data).Some? <==> r.entityType in {1, 2, 3, 5, 6, 8}
    ensures Created(r, data).Some? && r.entityType != 3 ==>
      Created(r, data).value.entityType == r.entityType && Created(r, data).value.x == r.x && Created(r, data).value.y == r.y
    ensures r.entityType == 3 <==> ExitPushed(r).Some?
    ensures r.entityType == 3 ==> Created(r, data).value.kind == ExitSwitch
  {
  }

  predicate AllSwitchBytes(rs: seq<Record>, data: seq<byte>)
    requires |data| > EXIT_DOOR_COUNT
  {
    forall k :: 0 <= k < |rs| ==> SwitchBytesPresent(data, rs[k].entityType)
  }

  function OptList(o: Option<EntityInfo>): seq<EntityInfo>
  {
    if o.Some? then [o.value] else []
  }

  /** What one record appends to the list of type t: its Exit first, then addEntity's push. */
  function TypeStep(r: Record, data: seq<byte>, t: EntityType): seq<EntityInfo>
    requires |data| > EXIT_DOOR_COUNT && SwitchBytesPresent(data, r.entityType)
  {
    (if t == EXIT then OptList(ExitPushed(r)) else []) +
    (if Created(r, data).Some? && Created(r, data).value.entityType == t then [Created(r, data).value] else [])
  }

  /** What one record appends to the list of cell c. */
  function CellStep(r: Record, data: seq<byte>, c: Cell): seq<EntityInfo>
    requires |data| > EXIT_DOOR_COUNT && SwitchBytesPresent(data, r.entityType)
  {
    var o := Created(r, data);
    if o.Some? && CellOf(o.value.x, o.value.y) == c then [o.value] else []
  }

  function TypePushes(rs: seq<Record>, data: seq<byte>, t: EntityType): seq<EntityInfo>
    requires |data| > EXIT_DOOR_COUNT && AllSwitchBytes(rs, data)
  {
    if rs == [] then [] else TypePushes(rs[..|rs| - 1], data, t) + TypeStep(rs[|rs| - 1], data, t)
  }

  function CellPushes(rs: seq<Record>, data: seq<byte>, c: Cell): seq<EntityInfo>
    requires |data| > EXIT_DOOR_COUNT && AllSwitchBytes(rs, data)
  {
    if rs == [] then [] else CellPushes(rs[..|rs| - 1], data, c) + CellStep(rs[|rs| - 1], data, c)
  }

  /** The entities createEntity returns, in record order. */
  function CreatedAll(rs: seq<Record>, data: seq<byte>): seq<EntityInfo>
    requires |data| > EXIT_DOOR_COUNT && AllSwitchBytes(rs, data)
  {
    if rs == [] then [] else CreatedAll(rs[..|rs| - 1], data) + OptList(Created(rs[|rs| - 1], data))
  }

  /** A type list only ever receives entities of its own type. */
  lemma {:induction false} TypePushesHaveType(rs: seq<Record>, data: seq<byte>, t: EntityType)
    requires |data| > EXIT_DOOR_COUNT && AllSwitchBytes(rs, data)
    ensures forall i :: 0 <= i < |TypePushes(rs, data, t)| ==> TypePushes(rs, data, t)[i].entityType == t
  {
    if rs != [] {
      TypePushesHaveType(rs[..|rs| - 1], data, t);
    }
  }

  /** A cell list only ever receives created entities of that cell, and never an Exit. */
  lemma {:induction false} CellPushesHaveCell(rs: seq<Record>, data: seq<byte>, c: Cell)
    requires |data| > EXIT_DOOR_COUNT && AllSwitchBytes(rs, data)
    ensures forall i :: 0 <= i < |CellPushes(rs, data, c)| ==>
      CellOf(CellPushes(rs, data, c)[i].x, CellPushes(rs, data, c)[i].y) == c &&
      !CellPushes(rs, data, c)[i].kind.Exit?
  {
    if rs != [] {
      CellPushesHaveCell(rs[..|rs| - 1], data, c);
    }
  }

  /** Every exit door is filed together with its switch: the type-3 and type-4 lists grow alike. */
  lemma {:induction false} ExitsPairWithSwitches(rs: seq<Record>, data: seq<byte>)
    requires |data| > EXIT_DOOR_COUNT && AllSwitchBytes(rs, data)
    ensures |TypePushes(rs, data, EXIT)| == |TypePushes(rs, data, EXIT_SWITCH)|
  {
    if rs != [] {
      ExitsPairWithSwitches(rs[..|rs| - 1], data);
    }
  }

  /** Each created entity lands in the list of its own type (the Exit beside it is extra). */
  lemma {:induction false} CreatedFiledByType(rs: seq<Record>, data: seq<byte>, t: EntityType)
    requires |data| > EXIT_DOOR_COUNT && AllSwitchBytes(rs, data)
    ensures multiset(TypePushes(rs, data, t)) ==
      multiset(Filter(CreatedAll(rs, data), t)) + (if t == EXIT then multiset(Exits(rs)) else multiset{})
  {
    if rs != [] {
      CreatedFiledByType(rs[..|rs| - 1], data, t);
      var r := rs[|rs| - 1];
      FilterAppend(CreatedAll(rs[..|rs| - 1], data), OptList(Created(r, data)), t);
      TypeStepFiled(r, data, t);
    }
  }

  /** CreatedFiledByType for one record. */
  lemma TypeStepFiled(r: Record, data: seq<byte>, t: EntityType)
    requires |data| > EXIT_DOOR_COUNT && SwitchBytesPresent(data, r.entityType)
    ensures multiset(TypeStep(r, data, t)) ==
      multiset(Filter(OptList(Created(r, data)), t)) + (if t == EXIT then multiset(OptList(ExitPushed(r))) else multiset{})
  {
    var o := OptList(Created(r, data));
    if o != [] {
      assert Filter(o, t) == Filter([], t) + (if o[0].entityType == t then [o[0]] else []);
    }
  }

  /** The entities of type t in a list, in order. */
  function Filter(infos: seq<EntityInfo>, t: EntityType): seq<EntityInfo>
  {
    if infos == [] then []
    else Filter(infos[..|infos| - 1], t) + (if infos[|infos| - 1].entityType == t then [infos[|infos| - 1]] else [])
  }

  lemma {:induction false} FilterAppend(a: seq<EntityInfo>, b: seq<EntityInfo>, t: EntityType)
    ensures Filter(a + b, t) == Filter(a, t) + Filter(b, t)
    decreases |b|
  {
    if b == [] {
      assert a + b == a;
    } else {
      assert (a + b)[..|a + b| - 1] == a + b[..|b| - 1];
      FilterAppend(a, b[..|b| - 1], t);
    }
  }

  /** The Exits that exit records file directly. */
  function Exits(rs: seq<Record>): seq<EntityInfo>
  {
    if rs == [] then [] else Exits(rs[..|rs| - 1]) + OptList(ExitPushed(rs[|rs| - 1]))
  }

  /** Filing x under k appends its description to list k and to no other. */
  lemma FiledInfos<K>(dic: map<K, seq<Entity>>, k: K, x: Entity, j: K)
    ensures Infos(GetOr(Filed(dic, k, x), j, [])) == Infos(GetOr(dic, j, [])) + (if j == k then [x.Info()] else [])
  {
    if j == k {
      InfosAppend(GetOr(dic, k, []), [x]);
    } else {
      assert Infos(GetOr(dic, j, [])) + [] == Infos(GetOr(dic, j, []));
    }
  }

  /** Each type list holds its starting descriptions followed by what the records rs pushed to it. */
  ghost predicate TypesLoaded(dic: map<EntityType, seq<Entity>>, d0: map<EntityType, seq<Entity>>, rs: seq<Record>, data: seq<byte>)
    requires |data| > EXIT_DOOR_COUNT && AllSwitchBytes(rs, data)
  {
    forall t: EntityType :: Infos(GetOr(dic, t, [])) == Infos(GetOr(d0, t, [])) + TypePushes(rs, data, t)
  }

  /** Each cell list holds its starting descriptions followed by what the records rs pushed to it. */
  ghost predicate CellsLoaded(dic: map<Cell, seq<Entity>>, d0: map<Cell, seq<Entity>>, rs: seq<Record>, data: seq<byte>)
    requires |data| > EXIT_DOOR_COUNT && AllSwitchBytes(rs, data)
  {
    forall c: Cell :: Infos(GetOr(dic, c, [])) == Infos(GetOr(d0, c, [])) + CellPushes(rs, data, c)
  }

  /** One more record extends the type lists by its TypeStep. */
  lemma TypesLoadedStep(dic: map<EntityType, seq<Entity>>, next: map<EntityType, seq<Entity>>, d0: map<EntityType, seq<Entity>>,
                        rs: seq<Record>, r: Record, data: seq<byte>)
    requires |data| > EXIT_DOOR_COUNT && AllSwitchBytes(rs, data) && SwitchBytesPresent(data, r.entityType)
    requires TypesLoaded(dic, d0, rs, data)
    requires forall t: EntityType :: Infos(GetOr(next, t, [])) == Infos(GetOr(dic, t, [])) + TypeStep(r, data, t)
    ensures AllSwitchBytes(rs + [r], data) && TypesLoaded(next, d0, rs + [r], data)
  {
    assert (rs + [r])[..|rs|] == rs;
  }

  /** One more record extends the cell lists by its CellStep. */
  lemma CellsLoadedStep(dic: map<Cell, seq<Entity>>, next: map<Cell, seq<Entity>>, d0: map<Cell, seq<Entity>>,
                        rs: seq<Record>, r: Record, data: seq<byte>)
    requires |data| > EXIT_DOOR_COUNT && AllSwitchBytes(rs, data) && SwitchBytesPresent(data, r.entityType)
    requires CellsLoaded(dic, d0, rs, data)
    requires forall c: Cell :: Infos(GetOr(next, c, [])) == Infos(GetOr(dic, c, [])) + CellStep(r, data, c)
    ensures AllSwitchBytes(rs + [r], data) && CellsLoaded(next, d0, rs + [r], data)
  {
    assert (rs + [r])[..|rs|] == rs;
  }

  /** The descriptions of the created entities grow by the record's creation. */
  lemma CreatedAllStep(rs: seq<Record>, r: Record, data: seq<byte>)
    requires |data| > EXIT_DOOR_COUNT && AllSwitchBytes(rs, data) && SwitchBytesPresent(data, r.entityType)
    ensures AllSwitchBytes(rs + [r], data)
    ensures CreatedAll(rs + [r], data) == CreatedAll(rs, data) + OptList(Created(r, data))
  {
    assert (rs + [r])[..|rs|] == rs;
  }
}
