/** The hostile objects of the game: drifting debris and lettered spaceships
    (the classes Debris and Spaceship of game-logic.js) as one tagged union. */
module Targets {
  import opened Geometry

  /** The four spaceship letters, which are also the accepted command keys. */
  const Letters: seq<string> := ["W", "A", "S", "D"]

  /** Extra displacement per axis of a zigzagging debris. */
  const ZigzagStrength: real := 2.0

  /** Increment of a debris' zigzag angle per step, in radians. */
  const ZigzagTurn: real := 0.1

  datatype Target =
    | Debris(x: real, y: real, width: real, height: real, clickRadius: real, speed: real,
             zigzag: bool, zigzagAngle: real, rotation: real, rotationSpeed: real)
    | Spaceship(x: real, y: real, width: real, height: real, speed: real, letter: string)

  /** What every target built by the two constructors satisfies, and what motion keeps. */
  predicate WellFormed(t: Target)
  {
    match t
    case Debris(_, _, w, h, cr, sp, _, _, _, rs) =>
      w == 50.0 && h == 50.0 && cr == 40.0 && 0.5 <= sp < 1.0 && -0.05 <= rs < 0.05
    case Spaceship(_, _, w, h, sp, l) =>
      w == 40.0 && h == 30.0 && 0.2 <= sp < 0.5 && l in Letters
  }

  /** `new Debris()`: (x, y) is the point setRandomPosition picks; the three draws
      are the constructor's `Math.random()` results, each in [0, 1). */
  function NewDebris(x: real, y: real, speedDraw: real, zigzagDraw: real, rotationDraw: real): (r: Target)
    requires 0.0 <= speedDraw < 1.0 && 0.0 <= zigzagDraw < 1.0 && 0.0 <= rotationDraw < 1.0
    ensures r.Debris? && WellFormed(r)
    ensures r.x == x && r.y == y && r.zigzagAngle == 0.0 && r.rotation == 0.0
    ensures r.zigzag <==> zigzagDraw < 0.3
  {
    Debris(x, y, 50.0, 50.0, 40.0, speedDraw * 0.5 + 0.5, zigzagDraw < 0.3, 0.0, 0.0,
           rotationDraw * 0.1 - 0.05)
  }

  /** `new Spaceship()`: (x, y) is the point setRandomPosition picks; the draws are
      the constructor's `Math.random()` results, each in [0, 1). */
  function NewSpaceship(x: real, y: real, speedDraw: real, letterDraw: real): (r: Target)
    requires 0.0 <= speedDraw < 1.0 && 0.0 <= letterDraw < 1.0
    ensures r.Spaceship? && WellFormed(r)
    ensures r.x == x && r.y == y
  {
    var i := (letterDraw * 4.0).Floor;
    Spaceship(x, y, 40.0, 30.0, speedDraw * 0.3 + 0.2, Letters[i])
  }

  /** Each letter is drawn on exactly one quarter of [0, 1): the choice is uniform. */
  lemma LetterDrawQuarters(x: real, y: real, speedDraw: real, letterDraw: real, i: nat)
    requires 0.0 <= speedDraw < 1.0 && 0.0 <= letterDraw < 1.0 && i < 4
    ensures NewSpaceship(x, y, speedDraw, letterDraw).letter == Letters[i]
        <==> i as real / 4.0 <= letterDraw < (i + 1) as real / 4.0
  {
    var k := (letterDraw * 4.0).Floor;
    assert k as real <= letterDraw * 4.0 < k as real + 1.0;
    assert Letters[0] != Letters[1] && Letters[0] != Letters[2] && Letters[0] != Letters[3];
    assert Letters[1] != Letters[2] && Letters[1] != Letters[3] && Letters[2] != Letters[3];
    if k < i {
      assert letterDraw < (k + 1) as real / 4.0 <= i as real / 4.0;
    } else if k > i {
      assert letterDraw >= k as real / 4.0 >= (i + 1) as real / 4.0;
    }
  }

  /** The floating-point primitives motion needs.  `direction(dx, dy)` is the unit
      vector `(dx / distance, dy / distance)` the source computes with Math.sqrt;
      `sin` and `cos` are Math.sin and Math.cos. */
  datatype MathLib = MathLib(direction: (real, real) -> (real, real), sin: real -> real, cos: real -> real)

  /** One `update()` of a target that homes in on the center (cx, cy), with every
      target's speed scaled by the difficulty.  A zigzagging debris first turns its
      zigzag angle and adds the sine and cosine of the new angle; a debris also spins. */
  function Moved(t: Target, cx: real, cy: real, difficulty: real, m: MathLib): (r: Target)
    ensures r.Debris? == t.Debris?
    ensures r.width == t.width && r.height == t.height && r.speed == t.speed
    ensures t.Debris? ==> r.clickRadius == t.clickRadius && r.zigzag == t.zigzag
                          && r.rotation == t.rotation + t.rotationSpeed
                          && r.rotationSpeed == t.rotationSpeed
    ensures t.Spaceship? ==> r.letter == t.letter
    ensures WellFormed(t) ==> WellFormed(r)
  {
    var (ux, uy) := m.direction(cx - t.x, cy - t.y);
    var moveX := ux * t.speed * difficulty;
    var moveY := uy * t.speed * difficulty;
    match t
    case Spaceship(x, y, w, h, sp, l) =>
      Spaceship(x + moveX, y + moveY, w, h, sp, l)
    case Debris(x, y, w, h, cr, sp, zz, angle, rot, rs) =>
      if zz then
        var turned := angle + ZigzagTurn;
        Debris(x + moveX + m.sin(turned) * ZigzagStrength, y + moveY + m.cos(turned) * ZigzagStrength,
               w, h, cr, sp, zz, turned, rot + rs, rs)
      else
        Debris(x + moveX, y + moveY, w, h, cr, sp, zz, angle, rot + rs, rs)
  }

  /** Homing without zigzag: when `direction` is the true unit vector toward the
      center, a target at distance d > 0 with step length v = speed * difficulty ends
      at distance |d - v|. */
  lemma HomingStep(t: Target, cx: real, cy: real, difficulty: real, m: MathLib, d: real)
    requires !(t.Debris? && t.zigzag)
    requires 0.0 < d && d * d == NormSq(cx - t.x, cy - t.y)
    requires m.direction(cx - t.x, cy - t.y) == ((cx - t.x) / d, (cy - t.y) / d)
    ensures var r := Moved(t, cx, cy, difficulty, m);
            var v := t.speed * difficulty;
            NormSq(cx - r.x, cy - r.y) == (d - v) * (d - v)
  {
    var r := Moved(t, cx, cy, difficulty, m);
    var v := t.speed * difficulty;
    var dx, dy := cx - t.x, cy - t.y;
    StraightMove(t, cx, cy, difficulty, m);
    assert cx - r.x == dx - dx / d * v by {
      assert dx / d * t.speed * difficulty == dx / d * v;
    }
    assert cy - r.y == dy - dy / d * v by {
      assert dy / d * t.speed * difficulty == dy / d * v;
    }
    ShortenAlong(dx, dy, d, v);
  }

  /** A step of length v from distance d, with 0 <= v <= 2 * d, lands no farther. */
  lemma OvershootBound(d: real, v: real)
    requires 0.0 <= v <= 2.0 * d
    ensures (d - v) * (d - v) <= d * d
  {
    assert (d - v) * (d - v) == d * d - v * (2.0 * d - v);
    assert v * (2.0 * d - v) >= 0.0;
  }

  /** Without zigzag, a target moves by its direction times speed times difficulty. */
  lemma StraightMove(t: Target, cx: real, cy: real, difficulty: real, m: MathLib)
    requires !(t.Debris? && t.zigzag)
    ensures Moved(t, cx, cy, difficulty, m).x == t.x + m.direction(cx - t.x, cy - t.y).0 * t.speed * difficulty
    ensures Moved(t, cx, cy, difficulty, m).y == t.y + m.direction(cx - t.x, cy - t.y).1 * t.speed * difficulty
  {
  }

  /** Monotonic homing: a non-zigzagging target whose step is at most twice its
      distance never ends farther from the center than it started. */
  lemma HomingNeverRecedes(t: Target, cx: real, cy: real, difficulty: real, m: MathLib, d: real)
    requires !(t.Debris? && t.zigzag)
    requires 0.0 < d && d * d == NormSq(cx - t.x, cy - t.y)
    requires m.direction(cx - t.x, cy - t.y) == ((cx - t.x) / d, (cy - t.y) / d)
    requires 0.0 <= t.speed * difficulty <= 2.0 * d
    ensures var r := Moved(t, cx, cy, difficulty, m);
            NormSq(cx - r.x, cy - r.y) <= NormSq(cx - t.x, cy - t.y)
  {
    HomingStep(t, cx, cy, difficulty, m, d);
    OvershootBound(d, t.speed * difficulty);
  }
}
