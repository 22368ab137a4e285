/** The per-step world changes other than collisions: spawning new targets
    (spawnObjects in game-logic.js) and moving every target (the forEach in update). */
module Spawning {
  import opened Targets

  /** The list after spawnObjects: a debris is pushed when its draw is below
      0.01 * difficulty, then a spaceship when its draw is below 0.005 * difficulty. */
  function Spawned(objs: seq<Target>, difficulty: real,
                   debrisDraw: real, debris: Target, shipDraw: real, ship: Target): (r: seq<Target>)
    requires debris.Debris? && ship.Spaceship?
    ensures |objs| <= |r| <= |objs| + 2 && r[..|objs|] == objs
    ensures forall i :: |objs| <= i < |r| ==> r[i] == debris || r[i] == ship
    ensures forall i, j :: |objs| <= i < j < |r| ==> r[i].Debris? && r[j].Spaceship?
    ensures (exists i :: |objs| <= i < |r| && r[i].Debris?) <==> debrisDraw < 0.01 * difficulty
    ensures (exists i :: |objs| <= i < |r| && r[i].Spaceship?) <==> shipDraw < 0.005 * difficulty
  {
    var withDebris := if debrisDraw < 0.01 * difficulty then objs + [debris] else objs;
    assert debrisDraw < 0.01 * difficulty ==> withDebris[|objs|].Debris?;
    if shipDraw < 0.005 * difficulty then
      var r := withDebris + [ship];
      assert r[|withDebris|].Spaceship?;
      assert debrisDraw < 0.01 * difficulty ==> r[|objs|].Debris?;
      r
    else
      withDebris
  }

  /** Every target after one motion step (each target's own update, under the same
      difficulty); the list keeps its length and each target keeps its kind. */
  function MovedAll(s: seq<Target>, cx: real, cy: real, difficulty: real, m: MathLib): (r: seq<Target>)
    ensures |r| == |s|
    ensures forall i :: 0 <= i < |s| ==> r[i].Debris? == s[i].Debris?
    ensures forall i :: 0 <= i < |s| ==> WellFormed(s[i]) ==> WellFormed(r[i])
  {
    seq(|s|, i requires 0 <= i < |s| => Moved(s[i], cx, cy, difficulty, m))
  }
}
