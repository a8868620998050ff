/** Gold::logicalCollision: a pickup that the winning ninja cannot make. */
module GoldEntity {
  import opened Entities

  /** What the hook reads and writes: the ninja, the gold's active flag and its collision log count. */
  datatype GoldState = GoldState(ninja: NinjaView, active: bool, logged: nat)

  /** The winning state, in which nothing is collected. */
  const WINNING_STATE := 8

  /** One call of the hook, given whether gold and ninja overlap. */
  function Collide(s: GoldState, overlap: bool): GoldState
  {
    if s.ninja.state == WINNING_STATE then s
    else if overlap then GoldState(s.ninja.(goldCollected := s.ninja.goldCollected + 1), false, s.logged + 1)
    else s
  }

  method LogicalCollision(gold: Entity, ninja: Ninja, overlaps: Overlap)
    modifies gold`active, gold`collisionsLogged, ninja
    ensures GoldState(ninja.View(), gold.active, gold.collisionsLogged) ==
      Collide(old(GoldState(ninja.View(), gold.active, gold.collisionsLogged)),
              overlaps(gold.xpos, gold.ypos, gold.radius, ninja.xpos, ninja.ypos, ninja.radius))
  {
    if ninja.state == WINNING_STATE {
      return;
    }
    if overlaps(gold.xpos, gold.ypos, gold.radius, ninja.xpos, ninja.ypos, ninja.radius) {
      ninja.goldCollected := ninja.goldCollected + 1;
      gold.active := false;
      gold.collisionsLogged := gold.collisionsLogged + 1;
    }
  }

  /**
   * A pickup changes the ninja's gold count by one and nothing else of the
   * ninja; otherwise nothing changes. The hook never reads the gold's own
   * active flag, so inactive gold is collected again.
   */
  lemma CollideEffect(s: GoldState, overlap: bool)
    ensures var r := Collide(s, overlap);
      && r.ninja.(goldCollected := s.ninja.goldCollected) == s.ninja
      && (s.ninja.state != WINNING_STATE && overlap <==> r.ninja.goldCollected == s.ninja.goldCollected + 1)
      && (s.ninja.state == WINNING_STATE || !overlap <==> r == s)
      && (r != s ==> !r.active && r.logged == s.logged + 1)
  {
  }

  /** Successive calls, one per contact flag. */
  function Run(s: GoldState, contacts: seq<bool>): GoldState
    decreases |contacts|
  {
    if contacts == [] then s else Run(Collide(s, contacts[0]), contacts[1..])
  }

  /** Successive calls made only while the gold is still active, as the collision pass does. */
  function GuardedRun(s: GoldState, contacts: seq<bool>): GoldState
    decreases |contacts|
  {
    if contacts == [] then s
    else GuardedRun(if s.active then Collide(s, contacts[0]) else s, contacts[1..])
  }

  function Contacts(contacts: seq<bool>): nat
  {
    if contacts == [] then 0 else (if contacts[0] then 1 else 0) + Contacts(contacts[1..])
  }

  /** Called on every contact, the hook adds one gold per contact: it does not guard itself. */
  lemma {:induction false} RunCountsEveryContact(s: GoldState, contacts: seq<bool>)
    requires s.ninja.state != WINNING_STATE
    ensures Run(s, contacts).ninja.goldCollected == s.ninja.goldCollected + Contacts(contacts)
    ensures Run(s, contacts).ninja.state == s.ninja.state
    decreases |contacts|
  {
    if contacts != [] {
      RunCountsEveryContact(Collide(s, contacts[0]), contacts[1..]);
    }
  }

  /**
   * Guarded by the active flag, a piece of gold is collected at most once:
   * exactly when it went from active to inactive, and surely when it was
   * active, the ninja not winning, and some contact happened.
   */
  lemma {:induction false} GuardedRunCollectsOnce(s: GoldState, contacts: seq<bool>)
    ensures var r := GuardedRun(s, contacts);
      && r.ninja.goldCollected == s.ninja.goldCollected + (if s.active && !r.active then 1 else 0)
      && (r.active ==> s.active)
      && (s.active && s.ninja.state != WINNING_STATE && true in contacts ==> !r.active)
    decreases |contacts|
  {
    if contacts != [] {
      var next := if s.active then Collide(s, contacts[0]) else s;
      GuardedRunCollectsOnce(next, contacts[1..]);
      assert contacts == [contacts[0]] + contacts[1..];
    }
  }
}
