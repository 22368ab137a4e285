/** Collision of targets with the planet (checkCollisions in game-logic.js): every
    target closer to the center than the planet's radius plus half its own width
    is removed, and each removal costs the planet 10 health. */
module Collisions {
  import opened Geometry
  import opened Targets

  const PlanetRadius: real := 30.0
  const CollisionDamage: int := 10

  /** True when the target touches the planet centered at (cx, cy). */
  predicate Collides(t: Target, cx: real, cy: real)
  {
    Within(t.x - cx, t.y - cy, PlanetRadius + t.width / 2.0)
  }

  /** The targets that do not touch the planet, in their original order. */
  function Survivors(s: seq<Target>, cx: real, cy: real): (r: seq<Target>)
    ensures |r| <= |s|
    ensures forall t :: t in r ==> t in s && !Collides(t, cx, cy)
  {
    if s == [] then []
    else if Collides(s[0], cx, cy) then Survivors(s[1..], cx, cy)
    else [s[0]] + Survivors(s[1..], cx, cy)
  }

  /** How many targets touch the planet. */
  function CollisionCount(s: seq<Target>, cx: real, cy: real): (n: nat)
    ensures n <= |s|
    ensures n == 0 <==> forall i :: 0 <= i < |s| ==> !Collides(s[i], cx, cy)
  {
    if s == [] then 0
    else (if Collides(s[0], cx, cy) then 1 else 0) + CollisionCount(s[1..], cx, cy)
  }

  /** Survivors and collisions of a suffix, one target at a time from its front. */
  lemma SuffixStep(s: seq<Target>, i: nat, cx: real, cy: real)
    requires i < |s|
    ensures Survivors(s[i..], cx, cy)
            == (if Collides(s[i], cx, cy) then [] else [s[i]]) + Survivors(s[i + 1..], cx, cy)
    ensures CollisionCount(s[i..], cx, cy)
            == (if Collides(s[i], cx, cy) then 1 else 0) + CollisionCount(s[i + 1..], cx, cy)
  {
    assert s[i..][0] == s[i];
    assert s[i..][1..] == s[i + 1..];
  }

  /** The middle element x of p + [x] + q, spliced out or kept. */
  lemma SpliceOrKeep(p: seq<Target>, x: Target, q: seq<Target>, drop: bool)
    ensures (p + [x] + q)[|p|] == x
    ensures p + ((if drop then [] else [x]) + q)
            == (if drop then (p + [x] + q)[..|p|] + (p + [x] + q)[|p| + 1..] else p + [x] + q)
  {
    assert (p + [x] + q)[..|p|] == p;
    assert (p + [x] + q)[|p| + 1..] == q;
    if !drop {
      assert p + ([x] + q) == p + [x] + q;
    }
  }

  /** One iteration of the backward scan: with the targets from i + 1 on already
      resolved, resolving the target at i splices it out exactly when it collides. */
  lemma ScanStep(s: seq<Target>, i: nat, cx: real, cy: real)
    requires i < |s|
    ensures var before := s[..i + 1] + Survivors(s[i + 1..], cx, cy);
            && before[i] == s[i]
            && s[..i] + Survivors(s[i..], cx, cy)
               == (if Collides(s[i], cx, cy) then before[..i] + before[i + 1..] else before)
            && CollisionCount(s[i..], cx, cy)
               == (if Collides(s[i], cx, cy) then 1 else 0) + CollisionCount(s[i + 1..], cx, cy)
  {
    SuffixStep(s, i, cx, cy);
    assert s[..i + 1] == s[..i] + [s[i]];
    SpliceOrKeep(s[..i], s[i], Survivors(s[i + 1..], cx, cy), Collides(s[i], cx, cy));
  }

  /** Every target either survives or is counted as a collision. */
  lemma {:induction false} SurvivorsAndCollisions(s: seq<Target>, cx: real, cy: real)
    ensures |Survivors(s, cx, cy)| + CollisionCount(s, cx, cy) == |s|
  {
    if s != [] {
      SurvivorsAndCollisions(s[1..], cx, cy);
    }
  }

  /** A target survives exactly when it is in the list and does not touch the planet. */
  lemma {:induction false} SurvivorsMembership(s: seq<Target>, cx: real, cy: real, t: Target)
    ensures t in Survivors(s, cx, cy) <==> t in s && !Collides(t, cx, cy)
  {
    if s != [] {
      SurvivorsMembership(s[1..], cx, cy, t);
      assert t in s <==> t == s[0] || t in s[1..];
    }
  }

  /** Survival is decided target by target, so the order of the list is kept:
      the survivors of a concatenation are the concatenated survivors. */
  lemma {:induction false} SurvivorsConcat(a: seq<Target>, b: seq<Target>, cx: real, cy: real)
    ensures Survivors(a + b, cx, cy) == Survivors(a, cx, cy) + Survivors(b, cx, cy)
  {
    if a == [] {
      assert a + b == b;
    } else {
      assert (a + b)[0] == a[0];
      assert (a + b)[1..] == a[1..] + b;
      SurvivorsConcat(a[1..], b, cx, cy);
    }
  }

  /** Survival removes targets and alters none, so well-formedness is kept. */
  lemma SurvivorsWellFormed(s: seq<Target>, cx: real, cy: real)
    requires forall i :: 0 <= i < |s| ==> WellFormed(s[i])
    ensures forall i :: 0 <= i < |Survivors(s, cx, cy)| ==> WellFormed(Survivors(s, cx, cy)[i])
  {
    var r := Survivors(s, cx, cy);
    forall i | 0 <= i < |r| ensures WellFormed(r[i]) {
      assert r[i] in r;
    }
  }

  /** With no target touching the planet, nothing is removed. */
  lemma {:induction false} SurvivorsOfClearList(s: seq<Target>, cx: real, cy: real)
    requires forall i :: 0 <= i < |s| ==> !Collides(s[i], cx, cy)
    ensures Survivors(s, cx, cy) == s
  {
    if s != [] {
      SurvivorsOfClearList(s[1..], cx, cy);
    }
  }

  /** The collision test is the source's: with d the true distance of the target
      from the center, it collides exactly when d < planet radius + width / 2. */
  lemma CollidesIffCloserThan(t: Target, cx: real, cy: real, d: real)
    requires 0.0 <= d && d * d == NormSq(t.x - cx, t.y - cy)
    ensures Collides(t, cx, cy) <==> d < PlanetRadius + t.width / 2.0
  {
    WithinIsDistanceBelow(t.x - cx, t.y - cy, PlanetRadius + t.width / 2.0, d);
  }

  /** The loop of checkCollisions over the planet's state: scans the targets from
      the back, splices out each one touching the planet, takes 10 health for it
      and declares the game over (the inverted `gameRunning` flag) once health is
      0 or below.  Returns the survivors, the new health and the new flag. */
  method ResolveCollisions(s: seq<Target>, cx: real, cy: real, health: int, gameRunning: bool)
    returns (remaining: seq<Target>, hp: int, over: bool)
    ensures remaining == Survivors(s, cx, cy)
    ensures hp == health - CollisionDamage * CollisionCount(s, cx, cy)
    ensures over <==> gameRunning || (CollisionCount(s, cx, cy) > 0 && hp <= 0)
  {
    remaining, hp, over := s, health, gameRunning;
    var i := |s|;
    while i > 0
      invariant 0 <= i <= |s|
      invariant remaining == s[..i] + Survivors(s[i..], cx, cy)
      invariant hp == health - CollisionDamage * CollisionCount(s[i..], cx, cy)
      invariant over <==> gameRunning || (CollisionCount(s[i..], cx, cy) > 0 && hp <= 0)
    {
      i := i - 1;
      ScanStep(s, i, cx, cy);
      if Collides(remaining[i], cx, cy) {
        remaining := remaining[..i] + remaining[i + 1..];
        hp := hp - CollisionDamage;
        if hp <= 0 {
          over := true;
        }
      }
    }
    assert s[0..] == s;
  }
}
