/**
 * The order of work in one tick, as a trace of calls into code outside this
 * model: entity moves, entity thinks, the ninja's physics block, the death
 * animation pin, logging and the periodic cache clear.
 */
module TickTrace {
  import opened Wrappers
  import opened Entities

  datatype Event =
    | Move(mover: Entity)
    | Think(thinker: Entity)
    | Integrate
    | PreCollision
    | CollideVsObjects
    | CollideVsTiles
    | PostCollision
    | NinjaThink
    | UpdateGraphics
    | SetAnimFrame(animFrame: int)
    | SetAnimState(animState: int)
    | NinjaLog(frame: int)
    | LogPosition(logged: Entity)
    | ClearCaches

  /** The type lists 1..n concatenated in ascending key order. */
  function ListsUpTo(dic: map<EntityType, seq<Entity>>, n: int): seq<Entity>
    requires n <= 28
    decreases n
  {
    if n < 1 then [] else ListsUpTo(dic, n - 1) + GetOr(dic, n, [])
  }

  /** Every registered entity, in the order the gather loop meets them. */
  function RegistryOrder(dic: map<EntityType, seq<Entity>>): seq<Entity>
  {
    ListsUpTo(dic, 28)
  }

  /** The registry walks exactly the lists stored under the keys 1-28. */
  lemma {:induction false} ListsUpToMembers(dic: map<EntityType, seq<Entity>>, n: int, e: Entity)
    requires n <= 28
    ensures e in ListsUpTo(dic, n) <==> exists t: EntityType :: t <= n && t in dic && e in dic[t]
    decreases n
  {
    if n >= 1 {
      ListsUpToMembers(dic, n - 1, e);
      var t: EntityType := n;
      if t in dic && e in dic[t] {
        assert e in GetOr(dic, t, []);
      }
    }
  }

  /** The entities the gather loop keeps for moving. */
  function ActiveMovable(es: seq<Entity>): seq<Entity>
    reads es
  {
    if es == [] then []
    else ActiveMovable(es[..|es| - 1]) + (if es[|es| - 1].active && es[|es| - 1].movable then [es[|es| - 1]] else [])
  }

  /** The entities the gather loop keeps for thinking. */
  function ActiveThinkable(es: seq<Entity>): seq<Entity>
    reads es
  {
    if es == [] then []
    else ActiveThinkable(es[..|es| - 1]) + (if es[|es| - 1].active && es[|es| - 1].thinkable then [es[|es| - 1]] else [])
  }

  /** Exactly the active movable entities are kept, each as often as it is listed. */
  lemma {:induction false} ActiveMovableExact(es: seq<Entity>, e: Entity)
    ensures multiset(ActiveMovable(es))[e] == if e.active && e.movable then multiset(es)[e] else 0
  {
    if es != [] {
      ActiveMovableExact(es[..|es| - 1], e);
      assert es == es[..|es| - 1] + [es[|es| - 1]];
    }
  }

  /** Exactly the active thinkable entities are kept, each as often as it is listed. */
  lemma {:induction false} ActiveThinkableExact(es: seq<Entity>, e: Entity)
    ensures multiset(ActiveThinkable(es))[e] == if e.active && e.thinkable then multiset(es)[e] else 0
  {
    if es != [] {
      ActiveThinkableExact(es[..|es| - 1], e);
      assert es == es[..|es| - 1] + [es[|es| - 1]];
    }
  }

  /** Gathering one more entity keeps it exactly when it is active and movable (thinkable). */
  lemma ActiveSnoc(s: seq<Entity>, e: Entity)
    ensures ActiveMovable(s + [e]) == ActiveMovable(s) + (if e.active && e.movable then [e] else [])
    ensures ActiveThinkable(s + [e]) == ActiveThinkable(s) + (if e.active && e.thinkable then [e] else [])
  {
    assert (s + [e])[..|s + [e]| - 1] == s;
  }

  /** Gathering over two lists one after the other gathers each in turn. */
  lemma {:induction false} ActiveAppend(a: seq<Entity>, b: seq<Entity>)
    ensures ActiveMovable(a + b) == ActiveMovable(a) + ActiveMovable(b)
    ensures ActiveThinkable(a + b) == ActiveThinkable(a) + ActiveThinkable(b)
    decreases |b|
  {
    if b != [] {
      var init := b[..|b| - 1];
      ActiveAppend(a, init);
      assert (a + b)[..|a + b| - 1] == a + init;
    } else {
      assert a + b == a;
    }
  }

  function Moves(es: seq<Entity>): (r: seq<Event>)
    ensures |r| == |es| && forall i :: 0 <= i < |es| ==> r[i] == Move(es[i])
  {
    seq(|es|, i requires 0 <= i < |es| => Move(es[i]))
  }

  function Thinks(es: seq<Entity>): (r: seq<Event>)
    ensures |r| == |es| && forall i :: 0 <= i < |es| ==> r[i] == Think(es[i])
  {
    seq(|es|, i requires 0 <= i < |es| => Think(es[i]))
  }

  function LogPositions(es: seq<Entity>): (r: seq<Event>)
    ensures |r| == |es| && forall i :: 0 <= i < |es| ==> r[i] == LogPosition(es[i])
  {
    seq(|es|, i requires 0 <= i < |es| => LogPosition(es[i]))
  }

  /** n rounds of collision resolution, objects before tiles in each. */
  function CollisionPasses(n: nat): seq<Event>
  {
    if n == 0 then [] else CollisionPasses(n - 1) + [CollideVsObjects, CollideVsTiles]
  }

  /** The ninja's physics block: integrate, pre-collision, four collision rounds, post-collision, think, and graphics when animation is on. */
  function PhysicsSteps(enableAnim: bool): seq<Event>
  {
    [Integrate, PreCollision] + CollisionPasses(4) + [PostCollision, NinjaThink] +
    (if enableAnim then [UpdateGraphics] else [])
  }

  /** The animation pin of a dead ninja. */
  function DeathPin(): seq<Event>
  {
    [SetAnimFrame(105), SetAnimState(7), UpdateGraphics]
  }

  /** Everything after the entity steps. */
  function NinjaAndLogging(movable: seq<Entity>, physics: bool, deathPin: bool, enableAnim: bool,
                           logData: bool, hasNinja: bool, frame: int): seq<Event>
  {
    (if physics then PhysicsSteps(enableAnim) else []) + AfterPhysics(movable, deathPin, logData, hasNinja, frame)
  }

  /** The calls one tick makes, given the gathered lists and the ninja's situation. */
  function TickEvents(movable: seq<Entity>, thinkable: seq<Entity>, physics: bool, deathPin: bool,
                      enableAnim: bool, logData: bool, hasNinja: bool, frame: int): seq<Event>
  {
    Moves(movable) + Thinks(thinkable) + NinjaAndLogging(movable, physics, deathPin, enableAnim, logData, hasNinja, frame)
  }

  /** Round k of n is the pair (objects, tiles) at positions 2k and 2k + 1. */
  lemma {:induction false} CollisionPassesShape(n: nat)
    ensures |CollisionPasses(n)| == 2 * n
    ensures forall k :: 0 <= k < n ==>
      CollisionPasses(n)[2 * k] == CollideVsObjects && CollisionPasses(n)[2 * k + 1] == CollideVsTiles
  {
    if n > 0 {
      CollisionPassesShape(n - 1);
    }
  }

  /** A collision round holds nothing but the two collision calls. */
  lemma CollisionPassesOnlyCollide(n: nat)
    ensures forall i :: 0 <= i < |CollisionPasses(n)| ==>
      CollisionPasses(n)[i] == CollideVsObjects || CollisionPasses(n)[i] == CollideVsTiles
  {
    CollisionPassesShape(n);
    forall i | 0 <= i < |CollisionPasses(n)|
      ensures CollisionPasses(n)[i] == CollideVsObjects || CollisionPasses(n)[i] == CollideVsTiles
    {
      assert i == 2 * (i / 2) || i == 2 * (i / 2) + 1;
    }
  }

  /** The physics block in order; it updates graphics exactly when animation is enabled. */
  lemma PhysicsStepsShape(enableAnim: bool)
    ensures var p := PhysicsSteps(enableAnim);
      && |p| == (if enableAnim then 13 else 12)
      && p[0] == Integrate && p[1] == PreCollision
      && p[2..10] == CollisionPasses(4)
      && p[10] == PostCollision && p[11] == NinjaThink
      && (UpdateGraphics in p <==> enableAnim)
  {
    CollisionPassesShape(4);
    CollisionPassesOnlyCollide(4);
    var p := PhysicsSteps(enableAnim);
    assert p[2..10] == CollisionPasses(4);
  }

  /** After the entity steps, no entity moves or thinks. */
  lemma NoEntityStepsLater(movable: seq<Entity>, physics: bool, deathPin: bool, enableAnim: bool,
                           logData: bool, hasNinja: bool, frame: int)
    ensures var t := NinjaAndLogging(movable, physics, deathPin, enableAnim, logData, hasNinja, frame);
      forall ev :: ev in t ==> !ev.Move? && !ev.Think?
  {
    CollisionPassesMembers(4);
    forall ev | ev in LogPositions(movable)
      ensures ev.LogPosition?
    {
      var i :| 0 <= i < |LogPositions(movable)| && LogPositions(movable)[i] == ev;
    }
  }

  /** Every call of n collision rounds is one of the two collision calls. */
  lemma {:induction false} CollisionPassesMembers(n: nat)
    ensures forall ev :: ev in CollisionPasses(n) ==> ev == CollideVsObjects || ev == CollideVsTiles
  {
    if n > 0 {
      CollisionPassesMembers(n - 1);
    }
  }

  /**
   * Every move happens before every think, and every entity step before the
   * first ninja physics call.
   */
  lemma EntityStepsFirst(movable: seq<Entity>, thinkable: seq<Entity>, physics: bool, deathPin: bool,
                         enableAnim: bool, logData: bool, hasNinja: bool, frame: int)
    ensures var ev := TickEvents(movable, thinkable, physics, deathPin, enableAnim, logData, hasNinja, frame);
      && (forall i, j :: 0 <= i < |ev| && 0 <= j < |ev| && ev[i].Move? && ev[j].Think? ==> i < j)
      && (forall i, j :: 0 <= i < |ev| && 0 <= j < |ev| && (ev[i].Move? || ev[i].Think?) && ev[j] == Integrate ==> i < j)
  {
    var ev := TickEvents(movable, thinkable, physics, deathPin, enableAnim, logData, hasNinja, frame);
    var tail := NinjaAndLogging(movable, physics, deathPin, enableAnim, logData, hasNinja, frame);
    NoEntityStepsLater(movable, physics, deathPin, enableAnim, logData, hasNinja, frame);
    var m, n := |movable|, |movable| + |thinkable|;
    forall k | 0 <= k < |ev|
      ensures (ev[k].Move? ==> k < m) && (ev[k].Think? ==> m <= k < n) && (ev[k] == Integrate ==> n <= k)
    {
      if k >= n {
        assert ev[k] == tail[k - n] && tail[k - n] in tail;
      } else if k >= m {
        assert ev[k] == Thinks(thinkable)[k - m];
      } else {
        assert ev[k] == Moves(movable)[k];
      }
    }
  }

  /** The calls after the physics block: the death pin, logging and the cache clear. */
  function AfterPhysics(movable: seq<Entity>, deathPin: bool, logData: bool, hasNinja: bool, frame: int): seq<Event>
  {
    (if deathPin then DeathPin() else []) +
    (if logData then (if hasNinja then [NinjaLog(frame)] else []) + LogPositions(movable) else []) +
    (if frame % 100 == 0 then [ClearCaches] else [])
  }

  lemma NoPhysicsAfter(movable: seq<Entity>, deathPin: bool, logData: bool, hasNinja: bool, frame: int)
    ensures Integrate !in AfterPhysics(movable, deathPin, logData, hasNinja, frame)
  {
    assert Integrate !in LogPositions(movable);
  }

  /**
   * The ninja's physics block runs exactly when the tick was told it does,
   * and then as one piece right after the entity steps.
   */
  lemma PhysicsRunsExactly(movable: seq<Entity>, thinkable: seq<Entity>, physics: bool, deathPin: bool,
                           enableAnim: bool, logData: bool, hasNinja: bool, frame: int)
    ensures var ev := TickEvents(movable, thinkable, physics, deathPin, enableAnim, logData, hasNinja, frame);
      var n := |movable| + |thinkable|;
      && (Integrate in ev <==> physics)
      && (physics ==> n + |PhysicsSteps(enableAnim)| <= |ev| && ev[n..n + |PhysicsSteps(enableAnim)|] == PhysicsSteps(enableAnim))
  {
    var ev := TickEvents(movable, thinkable, physics, deathPin, enableAnim, logData, hasNinja, frame);
    var entitySteps := Moves(movable) + Thinks(thinkable);
    var after := AfterPhysics(movable, deathPin, logData, hasNinja, frame);
    var p := if physics then PhysicsSteps(enableAnim) else [];
    assert ev == entitySteps + p + after;
    NoPhysicsAfter(movable, deathPin, logData, hasNinja, frame);
    assert Integrate !in entitySteps;
    if physics {
      assert ev[|entitySteps|..|entitySteps| + |p|] == p;
    }
  }

  /** The caches are cleared exactly on frames divisible by 100, as the last call of the tick. */
  lemma CachesClearedEveryHundred(movable: seq<Entity>, thinkable: seq<Entity>, physics: bool, deathPin: bool,
                                  enableAnim: bool, logData: bool, hasNinja: bool, frame: int)
    ensures var ev := TickEvents(movable, thinkable, physics, deathPin, enableAnim, logData, hasNinja, frame);
      && (ClearCaches in ev <==> frame % 100 == 0)
      && (frame % 100 == 0 ==> ev[|ev| - 1] == ClearCaches)
  {
    CollisionPassesOnlyCollide(4);
    var cp := CollisionPasses(4);
    assert ClearCaches !in cp;
    assert ClearCaches !in Moves(movable) && ClearCaches !in Thinks(thinkable) && ClearCaches !in LogPositions(movable);
  }

  /** The calls evs are one logPosition per description of infos, in order. */
  predicate LogsOf(evs: seq<Event>, infos: seq<EntityInfo>)
  {
    && |evs| == |infos|
    && forall k :: 0 <= k < |evs| ==> evs[k].LogPosition? && evs[k].logged.Info() == infos[k]
  }

  /** Logging a list of entities logs their descriptions, and logging works piecewise. */
  lemma LogPositionsLog(a: seq<Entity>, b: seq<Entity>)
    ensures LogsOf(LogPositions(a), Infos(a))
    ensures LogPositions(a + b) == LogPositions(a) + LogPositions(b)
  {
  }

  /** The number of logPosition calls on e in evs. */
  function LogCount(evs: seq<Event>, e: Entity): nat
  {
    multiset(evs)[LogPosition(e)]
  }

  /** Logging a list calls logPosition on each entity as often as the list holds it. */
  lemma {:induction false} LogPositionsCount(es: seq<Entity>, e: Entity)
    ensures LogCount(LogPositions(es), e) == multiset(es)[e]
  {
    if es != [] {
      var init := es[..|es| - 1];
      assert es == init + [es[|es| - 1]];
      LogPositionsLog(init, [es[|es| - 1]]);
      LogPositionsCount(init, e);
    }
  }

  /**
   * The gathered list alone decides which entities a tick logs: with
   * logging on, each is logged exactly as often as it was gathered, even
   * when the physics block deactivated it in between; with logging off,
   * none is.
   */
  lemma SnapshotLogged(movable: seq<Entity>, thinkable: seq<Entity>, physics: bool, deathPin: bool,
                       enableAnim: bool, logData: bool, hasNinja: bool, frame: int, e: Entity)
    ensures LogCount(TickEvents(movable, thinkable, physics, deathPin, enableAnim, logData, hasNinja, frame), e)
            == if logData then multiset(movable)[e] else 0
  {
    var ms, ts := Moves(movable), Thinks(thinkable);
    var ps := if physics then PhysicsSteps(enableAnim) else [];
    var after := AfterPhysics(movable, deathPin, logData, hasNinja, frame);
    NoLogIn(ms, e);
    NoLogIn(ts, e);
    PhysicsStepsNoLog(enableAnim, e);
    assert LogCount(ps, e) == 0;
    AfterPhysicsLogs(movable, deathPin, logData, hasNinja, frame, e);
    LogCountAppend(ps, after, e);
    LogCountAppend(ms, ts, e);
    LogCountAppend(ms + ts, ps + after, e);
  }

  /** The calls after the physics block log the gathered list once when logging is on. */
  lemma AfterPhysicsLogs(movable: seq<Entity>, deathPin: bool, logData: bool, hasNinja: bool, frame: int, e: Entity)
    ensures LogCount(AfterPhysics(movable, deathPin, logData, hasNinja, frame), e)
            == if logData then multiset(movable)[e] else 0
  {
    var pin: seq<Event> := if deathPin then DeathPin() else [];
    var ls: seq<Event> := if logData then (if hasNinja then [NinjaLog(frame)] else []) + LogPositions(movable) else [];
    var cc: seq<Event> := if frame % 100 == 0 then [ClearCaches] else [];
    assert AfterPhysics(movable, deathPin, logData, hasNinja, frame) == pin + ls + cc;
    assert LogCount(pin, e) == 0 by { DeathPinNoLog(e); }
    assert LogCount(cc, e) == 0 by { assert LogPosition(e) !in cc; }
    if logData {
      LoggingLogs(movable, hasNinja, frame, e);
    }
    LogCountAppend(pin, ls, e);
    LogCountAppend(pin + ls, cc, e);
  }

  lemma LoggingLogs(movable: seq<Entity>, hasNinja: bool, frame: int, e: Entity)
    ensures LogCount((if hasNinja then [NinjaLog(frame)] else []) + LogPositions(movable), e) == multiset(movable)[e]
  {
    assert LogCount([NinjaLog(frame)], e) == 0 by { assert LogPosition(e) !in [NinjaLog(frame)]; }
    LogPositionsCount(movable, e);
    LogCountAppend(if hasNinja then [NinjaLog(frame)] else [], LogPositions(movable), e);
  }

  lemma DeathPinNoLog(e: Entity)
    ensures LogCount(DeathPin(), e) == 0
  {
    assert LogPosition(e) !in DeathPin();
  }

  lemma NoLogIn(s: seq<Event>, e: Entity)
    requires forall i :: 0 <= i < |s| ==> !s[i].LogPosition?
    ensures LogCount(s, e) == 0
  {
    assert LogPosition(e) !in s;
  }

  lemma PhysicsStepsNoLog(enableAnim: bool, e: Entity)
    ensures LogCount(PhysicsSteps(enableAnim), e) == 0
  {
    CollisionPassesMembers(4);
    assert LogPosition(e) !in PhysicsSteps(enableAnim);
  }

  lemma LogCountAppend(a: seq<Event>, b: seq<Event>, e: Entity)
    ensures LogCount(a + b, e) == LogCount(a, e) + LogCount(b, e)
  {
  }

  /** One setActive(b) call made by a logical-collision hook while the physics block resolves collisions. */
  datatype FlagChange = FlagChange(target: Entity, active: bool)

  /** The entities a list of changes touches. */
  function Targets(cs: seq<FlagChange>): set<Entity>
  {
    set i | 0 <= i < |cs| :: cs[i].target
  }

  /** The active flag of e once the changes cs are made in order, starting from start. */
  function FlagAfter(cs: seq<FlagChange>, e: Entity, start: bool): bool
  {
    if cs == [] then start
    else if cs[|cs| - 1].target == e then cs[|cs| - 1].active
    else FlagAfter(cs[..|cs| - 1], e, start)
  }

  /** An untouched entity keeps its flag; a touched one ends with the value of the last change to it. */
  lemma {:induction false} FlagAfterLast(cs: seq<FlagChange>, e: Entity, start: bool)
    ensures e !in Targets(cs) ==> FlagAfter(cs, e, start) == start
    ensures e in Targets(cs) ==>
      exists k :: 0 <= k < |cs| && cs[k].target == e && FlagAfter(cs, e, start) == cs[k].active
                  && forall j :: k < j < |cs| ==> cs[j].target != e
  {
    if cs != [] {
      var init := cs[..|cs| - 1];
      FlagAfterLast(init, e, start);
      assert Targets(cs) == Targets(init) + {cs[|cs| - 1].target};
      if cs[|cs| - 1].target != e && e in Targets(cs) {
        var k :| 0 <= k < |init| && init[k].target == e && FlagAfter(init, e, start) == init[k].active
          && forall j :: k < j < |init| ==> init[j].target != e;
        assert cs[k] == init[k];
      }
    }
  }
}
