# Planet defence: the simulation core of game-logic.js

This project models the game state behind the canvas game in `game-logic.js`. A
planet sits at the center of the field. Debris and lettered spaceships spawn
outside the field and home in on the planet. The player destroys debris by
clicking them and spaceships by pressing their letter (W, A, S or D). A target
that reaches the planet is removed and costs the planet 10 health.

What is modelled:

- `Targets`: the two kinds of target as one datatype, `Target`. Their constructors take
  their `Math.random()` draws as parameters. Their per-step motion takes the square
  root, sine and cosine as a parameter (`MathLib`).
- `Geometry`: the test `Math.sqrt(dx*dx + dy*dy) < r` written with squares only. A lemma
  proves it matches the true distance exactly.
- `Commands`: the click and key-press handlers. Both scan the targets from the back and
  splice out the first one struck. This module also holds the key upper-casing.
- `Collisions`: `checkCollisions`. Its reverse-index splice loop is
  `ResolveCollisions`, and its result is stated through `Survivors` and `CollisionCount`.
- `Spawning`: `spawnObjects` and the per-step motion of the whole list.
- `Game`: the class `World`. Its fields are the source's module-level `score`,
  `gameRunning`, `difficulty`, `objects` and `planet.health`. Its methods are the
  handlers, `checkCollisions`, `spawnObjects` and `update`, and each one updates these
  fields in place.

The flag `gameRunning` keeps its name and its polarity from the source. It is `false`
while the game is played. It becomes `true` once health is 0 or below, and then
`update` does nothing. In the source the flag really means "game over". As in the
source, the input handlers are not gated on it.

Two behaviours of `game-logic.js` worth noting, both kept by the model:

- Health has no floor at 0. Several collisions in one step can take it below zero.
- A target at exactly the center is not special-cased: the division by a zero distance in `update()` is left to the motion parameter.

## Model

| member | source | states |
|---|---|---|
| `Geometry.WithinIsDistanceBelow` | game-logic.js:193-196 | the squared comparison holds exactly when the true distance d is below r, for every r |
| `Targets.NewDebris` | game-logic.js:32-42 | a new debris has width and height 50 and click radius 40. Its speed is in [0.5, 1) and its rotation speed in [-0.05, 0.05). It zigzags iff its draw is below 0.3, and starts with angle and rotation 0 at the given point |
| `Targets.NewSpaceship` | game-logic.js:89-95 | a new spaceship has width 40, height 30, speed in [0.2, 0.5) and a letter from W, A, S, D |
| `Targets.LetterDrawQuarters` | game-logic.js:94 | letter i is chosen exactly when the draw lies in [i/4, (i+1)/4), so the choice is uniform |
| `Targets.Moved` | game-logic.js:51-68 | motion keeps a target's kind, size, speed, click radius, zigzag flag and letter. It advances the rotation by the rotation speed and keeps well-formedness |
| `Targets.HomingStep` | game-logic.js:107-113 | given the true unit vector, a non-zigzagging target at distance d ends at distance d - speed*difficulty, in absolute value |
| `Targets.HomingNeverRecedes` | game-logic.js:51-56 | without zigzag, a step of at most twice the distance never moves a target away from the center |
| `Commands.ClickStrikesIffCloserThan` | game-logic.js:192-196 | a click strikes a debris exactly when its true distance from the click is below the click radius |
| `Commands.LastStruck` | game-logic.js:190-201 | returns the highest index struck by the attack, with nothing struck after it. It returns None exactly when no target is struck |
| `Commands.RemoveAt` | game-logic.js:197 | splice(i, 1) drops exactly element i. Earlier elements keep their index, later ones shift down by one, and the multiset loses only that element |
| `Commands.UpperCase` | game-logic.js:206 | upper-casing keeps the length and maps each character independently |
| `Commands.KeyCommand` | game-logic.js:206-210 | for each letter c of W, A, S, D, the command is c exactly when the upper-cased key is c, so the key pressed is the letter matched against the ships |
| `Commands.UpperCaseIdempotent` | game-logic.js:206 | upper-casing an upper-cased key changes nothing |
| `Commands.KeyCommandIgnoresCase` | game-logic.js:206-207 | a key and its upper-case form give the same command, so 'w' acts as 'W' |
| `Commands.KeyCommandAccepts` | game-logic.js:206-207 | exactly nine key names are accepted: w, a, s and d in either case, plus U+017F, which upper-cases to S |
| `Collisions.Survivors` | game-logic.js:222-229 | every survivor is one of the original targets and does not touch the planet |
| `Collisions.CollisionCount` | game-logic.js:228-230 | the count is at most the list length, and it is zero exactly when no target touches the planet |
| `Collisions.SurvivorsAndCollisions` | game-logic.js:228-230 | survivors plus collisions make up the whole list, so health falls by 10 per removed target |
| `Collisions.SurvivorsMembership` | game-logic.js:222-229 | a target survives if and only if it was in the list and does not touch the planet |
| `Collisions.SurvivorsConcat` | game-logic.js:222-229 | survival is decided target by target, so the survivors keep their original relative order |
| `Collisions.SurvivorsOfClearList` | game-logic.js:222-229 | when no target touches the planet, the list is unchanged |
| `Collisions.SurvivorsWellFormed` | game-logic.js:222-229 | survivors are not altered, so they stay well formed |
| `Collisions.CollidesIffCloserThan` | game-logic.js:224-228 | a target collides exactly when its true distance from the center is below 30 + width/2 |
| `Collisions.ResolveCollisions` | game-logic.js:221-233 | the reverse splice loop leaves exactly the survivors and takes 10 health per collision. It sets the game-over flag iff the flag was already set or a collision brought health to 0 or below |
| `Spawning.Spawned` | game-logic.js:150-153 | spawning keeps the old list as a prefix and appends at most two targets: at most one debris (iff its draw < 0.01*difficulty), then at most one spaceship (iff its draw < 0.005*difficulty) |
| `Spawning.MovedAll` | game-logic.js:171 | moving every target keeps the list's length, each target's kind and well-formedness |
| `Game.World.constructor` | game-logic.js:4-18 | the game starts with score 0, flag false, difficulty 1, no targets, health 100, and the center at half the canvas size |
| `Game.World.Strike` | game-logic.js:190-200 | the last struck target is spliced out and the reward added, or else nothing changes. Health, difficulty and the flag are untouched |
| `Game.World.Click` | game-logic.js:185-203 | a click removes the last debris within its click radius and adds 10, or else changes nothing |
| `Game.World.KeyDown` | game-logic.js:205-217 | an unaccepted key changes nothing. An accepted key removes the last spaceship with that letter and adds 20, or else changes nothing |
| `Game.World.CheckCollisions` | game-logic.js:221-233 | the targets become the survivors and health falls by 10 per collision. The flag becomes "was set or health <= 0". Score and difficulty are untouched, and the world invariant is kept |
| `Game.World.SpawnObjects` | game-logic.js:150-153 | the targets become the spawned list, nothing else changes, and the world invariant is kept |
| `Game.World.MoveAll` | game-logic.js:171 | every target takes its own motion step under the current difficulty, nothing else changes, and the world invariant is kept |
| `Game.World.Update` | game-logic.js:168-175 | when the flag is set, nothing changes. Otherwise the step spawns, moves and resolves collisions, and the flag becomes "health <= 0". Difficulty rises by exactly 0.00005 and score is unchanged |

The invariant `World.Valid()` holds from construction on, and every method keeps it.
It says: score is at least 0, health is at most 100, health <= 0 implies the game-over
flag, difficulty is at least 1, and every target is well formed. Every method's
postcondition keeps the flag set once it is set and never lowers the score.

## Left out

- Drawing: `planet.draw`, `Debris.draw`, `Spaceship.draw`, the top-level `draw`, the canvas context, the images and the unused collision sound. These are rendering and I/O.
- `gameLoop` and `requestAnimationFrame`: host scheduling. One call of `World.Update` is one frame.
- `setRandomPosition` and every `Math.random()` draw: spawn positions and draws are parameters.
- `Math.sqrt`, `Math.sin` and `Math.cos` inside motion: they are supplied through `MathLib`, so the model does not fix the exact motion.
- Floating-point rounding: positions, speeds and difficulty are exact reals. The accumulated rounding of `difficulty += 0.00005` and the NaN that a zero distance would produce in motion are not modelled.
- The translation of click coordinates with `getBoundingClientRect`: the click point is a parameter in field coordinates.
- `Commands.UpperChar`: it maps only ASCII a-z and U+017F. JavaScript's full Unicode upper-casing maps other characters too, and can lengthen a string, but no other input upper-cases to a single W, A, S or D, so the accepted keys are the same.
- `Game.World.CheckCollisions`: the reverse splice loop runs over local copies in `Collisions.ResolveCollisions`, and the result is written back to the fields in one step. The source updates the fields on each iteration. Nothing else runs between iterations, so the final state is the same.
