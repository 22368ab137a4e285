/** The game state of game-logic.js (the module-level score, gameRunning,
    difficulty, objects and planet.health) and the operations that change it in
    place: the two input handlers, checkCollisions, spawnObjects and update. */
module Game {
  import opened Targets
  import opened Commands
  import opened Collisions
  import opened Spawning

  /** Difficulty added by every step that runs. */
  const DifficultyStep: real := 0.00005

  class World {
    var score: int
    /** Named as in the source, but it means "game over": false while the game is
        played, set to true once the planet's health reaches 0, never reset. */
    var gameRunning: bool
    var difficulty: real
    /** The live targets in spawn order. */
    var objects: seq<Target>
    /** planet.health */
    var health: int
    /** The field center, where the planet sits. */
    const centerX: real
    const centerY: real

    ghost predicate Valid()
      reads this
    {
      && score >= 0
      && health <= 100
      && (health <= 0 ==> gameRunning)
      && difficulty >= 1.0
      && forall i :: 0 <= i < |objects| ==> WellFormed(objects[i])
    }

    /** The state when the script loads, on a canvas of the given size. */
    constructor (canvasWidth: real, canvasHeight: real)
      ensures Valid()
      ensures score == 0 && !gameRunning && difficulty == 1.0 && objects == [] && health == 100
      ensures centerX == canvasWidth / 2.0 && centerY == canvasHeight / 2.0
    {
      score := 0;
      gameRunning := false;
      difficulty := 1.0;
      objects := [];
      health := 100;
      centerX := canvasWidth / 2.0;
      centerY := canvasHeight / 2.0;
    }

    /** Scans the targets from the back and removes the first one the attack
        strikes, adding its reward; removes nothing if none is struck. */
    method Strike(a: Attack)
      requires Valid()
      modifies this
      ensures Valid()
      ensures LastStruck(old(objects), a).None? ==> objects == old(objects) && score == old(score)
      ensures LastStruck(old(objects), a).Some? ==>
                objects == RemoveAt(old(objects), LastStruck(old(objects), a).value)
                && score == old(score) + Reward(a)
      ensures health == old(health) && difficulty == old(difficulty) && gameRunning == old(gameRunning)
    {
      var i := |objects|;
      while i > 0
        invariant 0 <= i <= |objects|
        invariant objects == old(objects) && score == old(score)
        invariant forall j :: i <= j < |objects| ==> !Strikes(a, objects[j])
      {
        i := i - 1;
        if Strikes(a, objects[i]) {
          objects := objects[..i] + objects[i + 1..];
          score := score + Reward(a);
          break;
        }
      }
    }

    /** The 'click' listener, with the click already in field coordinates. */
    method Click(clickX: real, clickY: real)
      requires Valid()
      modifies this
      ensures Valid()
      ensures var hit := LastStruck(old(objects), Attack.Click(clickX, clickY));
              if hit.Some? then objects == RemoveAt(old(objects), hit.value) && score == old(score) + 10
              else objects == old(objects) && score == old(score)
      ensures health == old(health) && difficulty == old(difficulty) && gameRunning == old(gameRunning)
    {
      Strike(Attack.Click(clickX, clickY));
    }

    /** The 'keydown' listener, given the event's key name. */
    method KeyDown(key: string)
      requires Valid()
      modifies this
      ensures Valid()
      ensures KeyCommand(key).None? ==> objects == old(objects) && score == old(score)
      ensures KeyCommand(key).Some? ==>
                var hit := LastStruck(old(objects), Key(KeyCommand(key).value));
                if hit.Some? then objects == RemoveAt(old(objects), hit.value) && score == old(score) + 20
                else objects == old(objects) && score == old(score)
      ensures health == old(health) && difficulty == old(difficulty) && gameRunning == old(gameRunning)
    {
      var k := UpperCase(key);
      if k in Letters {
        Strike(Key(k));
      }
    }

    /** checkCollisions: removes every target touching the planet and takes 10
        health per removal; the game is over once health drops to 0 or below. */
    method CheckCollisions()
      requires Valid()
      modifies this
      ensures Valid()
      ensures objects == Survivors(old(objects), centerX, centerY)
      ensures health == old(health) - CollisionDamage * CollisionCount(old(objects), centerX, centerY)
      ensures gameRunning <==> old(gameRunning) || health <= 0
      ensures score == old(score) && difficulty == old(difficulty)
    {
      ghost var s := objects;
      objects, health, gameRunning := ResolveCollisions(objects, centerX, centerY, health, gameRunning);
      SurvivorsWellFormed(s, centerX, centerY);
    }

    /** spawnObjects, with its two Math.random() draws and the freshly built
        targets passed in. */
    method SpawnObjects(debrisDraw: real, debris: Target, shipDraw: real, ship: Target)
      requires Valid()
      requires debris.Debris? && WellFormed(debris) && ship.Spaceship? && WellFormed(ship)
      modifies this
      ensures Valid()
      ensures objects == Spawned(old(objects), difficulty, debrisDraw, debris, shipDraw, ship)
      ensures score == old(score) && difficulty == old(difficulty)
      ensures health == old(health) && gameRunning == old(gameRunning)
    {
      if debrisDraw < 0.01 * difficulty {
        objects := objects + [debris];
      }
      if shipDraw < 0.005 * difficulty {
        objects := objects + [ship];
      }
    }

    /** `objects.forEach(obj => obj.update())`: every target takes one motion step. */
    method MoveAll(m: MathLib)
      requires Valid()
      modifies this
      ensures Valid()
      ensures objects == MovedAll(old(objects), centerX, centerY, difficulty, m)
      ensures score == old(score) && difficulty == old(difficulty)
      ensures health == old(health) && gameRunning == old(gameRunning)
    {
      var i := 0;
      while i < |objects|
        invariant 0 <= i <= |objects| == |old(objects)|
        invariant forall j :: 0 <= j < i ==> objects[j] == Moved(old(objects)[j], centerX, centerY, difficulty, m)
        invariant forall j :: i <= j < |objects| ==> objects[j] == old(objects)[j]
        invariant score == old(score) && difficulty == old(difficulty)
        invariant health == old(health) && gameRunning == old(gameRunning)
      {
        objects := objects[i := Moved(objects[i], centerX, centerY, difficulty, m)];
        i := i + 1;
      }
    }

    /** One frame of the game loop: while the game is not over, spawn, move every
        target, resolve collisions and raise the difficulty; once it is over, nothing. */
    method Update(debrisDraw: real, debris: Target, shipDraw: real, ship: Target, m: MathLib)
      requires Valid()
      requires debris.Debris? && WellFormed(debris) && ship.Spaceship? && WellFormed(ship)
      modifies this
      ensures Valid()
      ensures old(gameRunning) ==> unchanged(this)
      ensures !old(gameRunning) ==>
                var moved := MovedAll(Spawned(old(objects), old(difficulty), debrisDraw, debris, shipDraw, ship),
                                      centerX, centerY, old(difficulty), m);
                && objects == Survivors(moved, centerX, centerY)
                && health == old(health) - CollisionDamage * CollisionCount(moved, centerX, centerY)
                && (gameRunning <==> health <= 0)
                && difficulty == old(difficulty) + DifficultyStep
                && score == old(score)
    {
      if !gameRunning {
        SpawnObjects(debrisDraw, debris, shipDraw, ship);
        MoveAll(m);
        CheckCollisions();
        difficulty := difficulty + DifficultyStep;
      }
    }
  }
}
