/** LaunchPad::logicalCollision: a pad that sets the ninja's launch boost. */
module LaunchPadEntity {
  import opened Entities

  /** The boost fields a pad writes: the direction vector, and the buffer reset to 0. */
  function Boost(n: NinjaView, v: (real, real)): NinjaView
  {
    n.(xlpBoostNormalized := v.0, ylpBoostNormalized := v.1, launchPadBuffer := 0)
  }

  /** One call: nothing for an invalid target or without overlap, otherwise the boost. */
  function Collide(n: NinjaView, validTarget: bool, overlap: bool, v: (real, real)): NinjaView
  {
    if !validTarget then n else if overlap then Boost(n, v) else n
  }

  /**
   * A ninja that is absent leaves the call without effect. validTarget is
   * the ninja's isValidTarget(), and toVector is mapOrientationToVector,
   * both outside this model.
   */
  method LogicalCollision(pad: Entity, ninja: Ninja?, validTarget: bool, overlaps: Overlap,
                          toVector: int -> (real, real))
    requires pad.kind.LaunchPad?
    modifies ninja
    ensures ninja != null ==>
      ninja.View() == Collide(old(ninja.View()), validTarget,
                              overlaps(pad.xpos, pad.ypos, pad.radius, ninja.xpos, ninja.ypos, ninja.radius),
                              toVector(pad.kind.orientation))
  {
    if ninja == null || !validTarget {
      return;
    }
    if overlaps(pad.xpos, pad.ypos, pad.radius, ninja.xpos, ninja.ypos, ninja.radius) {
      var v := toVector(pad.kind.orientation);
      ninja.xlpBoostNormalized := v.0;
      ninja.ylpBoostNormalized := v.1;
      ninja.launchPadBuffer := 0;
    }
  }

  /** The hook touches only the three boost fields, and a second call changes nothing more. */
  lemma CollideTouchesBoostOnly(n: NinjaView, validTarget: bool, overlap: bool, v: (real, real))
    ensures var r := Collide(n, validTarget, overlap, v);
      && r.(xlpBoostNormalized := n.xlpBoostNormalized, ylpBoostNormalized := n.ylpBoostNormalized,
            launchPadBuffer := n.launchPadBuffer) == n
      && Collide(r, validTarget, overlap, v) == r
  {
  }

  /** Successive calls with the same pad, each with its (valid target, overlap) pair. */
  function Run(n: NinjaView, calls: seq<(bool, bool)>, v: (real, real)): NinjaView
    decreases |calls|
  {
    if calls == [] then n else Run(Collide(n, calls[0].0, calls[0].1, v), calls[1..], v)
  }

  predicate Fires(calls: seq<(bool, bool)>)
  {
    exists i :: 0 <= i < |calls| && calls[i].0 && calls[i].1
  }

  /** Repeated calls boost exactly once in effect: the outcome is one boost if any call fired, else nothing. */
  lemma {:induction false} RunBoostsOnce(n: NinjaView, calls: seq<(bool, bool)>, v: (real, real))
    ensures Run(n, calls, v) == if Fires(calls) then Boost(n, v) else n
    decreases |calls|
  {
    if calls != [] {
      var next := Collide(n, calls[0].0, calls[0].1, v);
      RunBoostsOnce(next, calls[1..], v);
      if Fires(calls[1..]) {
        var i :| 0 <= i < |calls[1..]| && calls[1..][i].0 && calls[1..][i].1;
        assert calls[i + 1] == calls[1..][i];
      }
    }
  }
}
