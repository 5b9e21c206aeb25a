# Two browser games, one tick at a time

This project models the per-frame update of two small browser games and
proves what each tick does.

- **Arena shooter** (`script.js`). One call of `update()`:
  - moves the player by the held keys and keeps it on the canvas;
  - shrinks the safe zone and damages a player outside it;
  - advances the bullets and splices out those that left the canvas;
  - splices out bullet/enemy pairs whose boxes overlap;
  - steps each enemy towards the player and applies contact damage.

  Then `gameLoop()` decides defeat, victory or another frame. `shoot()`
  appends one bullet aimed at a target point.
- **Pinball** (`game.js`). One call of `updateBall()`:
  - moves the ball by its velocity and bounces it off the walls;
  - on a drain, takes a ball and either ends the game or resets the ball;
  - scores 500 for every bumper within reach;
  - lets a pressed flipper overwrite the velocity.

Both games change their state in place. Each is modelled in two modules:

- **Rules modules** `ArenaRules` and `PinballRules` (`arena_rules.dfy`,
  `pinball_rules.dfy`). They define one tick as a function `Tick` on a state
  value (`World`, `Table`), phase by phase. The lemmas about those functions
  state what the games promise.
- **Game modules** `ArenaGame` and `PinballGame` (`arena_game.dfy`,
  `pinball_game.dfy`). They hold the mutable state as a class:
  - `Arena` has the player's corner, health, zone radius, and bullet and
    enemy arrays;
  - `Pinball` has score, balls left, ball position and velocity, and a
    game-over flag.

  Their methods follow the source statement by statement, including the
  `forEach` loops that splice the array they walk. Each method is proved to
  leave its fields as the matching rules function says. So
  `Arena.Update` performs `ArenaRules.Tick`, and `Pinball.UpdateBall`
  performs `PinballRules.Tick`.

Module `Geometry` (`geometry.dfy`) holds the square-root model and the
arithmetic shared by both games. `Math.sqrt` is a parameter `sqrt`,
constrained by `IsSqrt` to return the non-negative root of a non-negative
argument. Lemmas turn each test on a root into a test on squares:

- the safe-zone test `distance > radius`;
- the bumper test `distanceTo < 3`, which becomes squared distance `< 9`.

The chase step and the shot divide by the root itself.

What splicing inside `forEach` does is modelled exactly:

- `forEach` visits indices below the array's length on entry and skips
  those past its current end.
- A splice shifts the next element into the current slot, so that element
  is passed over: not advanced, not tested.
- The inner collision pass keeps the captured bullet `b` after it was
  spliced out. Each further hit splices the bullet array at `bi` again,
  removing the bullet that moved into that slot, or nothing once `bi` is
  past the end.

The reference functions `Swept`, `Strike` and `Collide` describe these
passes by recursion on the original arrays. The loops are tied to them by
ghost `done`/`rest` invariants.

Some members are plain definitions and their meaning is stated by lemmas:

- The phase functions `Moved`, `Clamped`, `Zoned`, `BulletsSwept`,
  `Collided` and `Chased` are the six steps of the arena tick. `TickIsPhases`
  states that `Tick` is their composition in the source's order.
- The tests `OffScreen`, `Overlaps` and `Touches` are the source's
  comparisons written out:
  - `SweptOrigins` says what `OffScreen` does to the bullet pass.
  - `Overlaps` is the strict box-overlap test. `TouchingIsNoHit` says that
    boxes which only touch do not overlap. `StrikeMissIff` says that the
    inner pass removes nothing exactly when the bullet overlaps no enemy.
    `StrikeRemovesOnlyHit` and `CollideRemovesOnlyHit` say that an enemy
    no bullet overlaps is never removed.
  - `Contacts` and `ContactHealthTotal` say what `Touches` does.

The zone's radius falls by 0.05 a tick and stops at 50. It only falls
once it is at least 50. The constructor sets it to half the shorter side of
the canvas. When that side is under 100, the radius starts below 50 and the
first tick raises it to 50 (`script.js:22` and `script.js:66`). So the
radius is non-increasing only from the first tick on. `ShrinkRadius`,
`RadiusAfterTicks` and `Tick` state this exactly.

## Model

| member | source | states |
|---|---|---|
| ArenaRules.MoveAxis | script.js:54-57 | moves at most `speed` per axis; both or neither of the opposite keys leave the axis unchanged; one key moves it by exactly `speed`, towards smaller values exactly for the up/left key |
| ArenaRules.ClampAxis | script.js:60-63 | the corner ends at most `limit`; also at least 0 when the canvas is at least the player's size; a coordinate already inside is kept; otherwise it becomes 0 or `limit` |
| ArenaRules.ClampAxisIdempotent | script.js:60-63 | clamping an already clamped coordinate changes nothing |
| ArenaRules.ShrinkRadius | script.js:66 | new radius is at least 50; it drops by exactly 0.05 while `r - 0.05 >= 50`, is 50 otherwise, and never grows from a radius at least 50 |
| ArenaRules.RadiusAfterTicks | script.js:66 | after n ticks from r >= 50 the radius is max(50, r - 0.05 n) |
| ArenaRules.RadiusAfter5000Ticks | script.js:66 | a radius of 300 reaches the minimum after 5000 ticks |
| ArenaRules.OutsideZoneIffDistance | script.js:67-70 | `sqrt(dx*dx+dy*dy) > radius` holds exactly when the squared test does, so a player exactly on the boundary takes no damage |
| ArenaRules.Damaged | script.js:71-72 | health after damage is never negative, never higher, and is `health - amount` or 0 |
| ArenaRules.ZoneHealth | script.js:70-74 | inside the zone health is unchanged; outside it becomes max(0, health - 0.2) |
| ArenaRules.Swept | script.js:77-81 | the bullet pass never grows the bullet array |
| ArenaRules.SweptStep | script.js:77-81 | one `forEach` step on the live array (advance, maybe splice) keeps the rest of the pass's result unchanged |
| ArenaRules.SweptEntries | script.js:77-81 | every surviving bullet is an input bullet advanced and on screen, or the unadvanced bullet right behind one that is off screen once advanced |
| ArenaRules.SweptAllOnScreen | script.js:77-81 | when no bullet leaves, every bullet is advanced and none is removed |
| ArenaRules.SweptRemovesOnlyLeaving | script.js:77-81 | the number of bullets removed is at most the number that left the canvas |
| ArenaRules.SweptOrigins | script.js:77-81 | the survivors trace back to the input in increasing order, each advanced and on screen or unadvanced behind a bullet that is off screen once advanced, and every bullet with no survivor is off screen once advanced |
| ArenaRules.SweptKeepsOnScreen | script.js:77-81 | a bullet on the canvas once advanced survives the pass, advanced or (when skipped) unadvanced |
| ArenaRules.ShiftedBulletSkipped | script.js:77-81 | for two bullets: the second, shifted into the first's spliced slot, is kept unadvanced, even if it too would leave |
| ArenaRules.SweptSplit | script.js:77-81 | after a prefix the pass consumes in whole steps (each bullet stays, or leaves with the one shifted behind it), the pass on the rest is the pass on the rest alone |
| ArenaRules.SkipAnywhere | script.js:77-81 | at any position the pass reaches: a bullet that leaves is spliced out and the bullet shifted into its slot is kept unadvanced and unchecked, even if it too would leave |
| ArenaRules.TouchingIsNoHit | script.js:86 | boxes that only share an edge do not collide |
| ArenaRules.Strike | script.js:85-90 | the enemies left plus the hits add up to the enemies before, so each hit removes exactly one enemy |
| ArenaRules.StrikeOnlyRemoves | script.js:85-90 | the enemies left are a sub-multiset of those before |
| ArenaRules.StrikeStep | script.js:85-90 | one step of the inner `forEach` (splice on overlap, skip the shifted enemy) keeps the rest of the inner pass's result and hit count |
| ArenaRules.StrikeRemovesOnlyHit | script.js:85-90 | an enemy the bullet does not overlap is kept by the inner pass as often as it occurs, so every enemy removed is one the bullet overlaps |
| ArenaRules.StrikeKeepsMisses | script.js:85-90 | each enemy the bullet misses is still in the array after the inner pass |
| ArenaRules.StrikeMissIff | script.js:85-90 | a bullet scores no hit exactly when it overlaps no enemy |
| ArenaRules.StrikeKeepsAll | script.js:85-90 | a bullet overlapping nothing leaves the enemy array as it was |
| ArenaRules.Splice | script.js:88 | `splice(i, 1)` removes element `i` and moves every later element down one slot; past the end it changes nothing |
| ArenaRules.SpliceTimesRemoves | script.js:88 | `h` splices at slot `i` remove the `h` elements from `i` on, as many as exist, and nothing when `i` is past the end |
| ArenaRules.SpliceTimesSucc | script.js:88 | one more splice is taken after the earlier ones |
| ArenaRules.Collide | script.js:84-91 | neither array grows, and no more bullets are removed than enemies |
| ArenaRules.CollideStep | script.js:84-91 | one step of the outer `forEach` (inner pass, then `h` splices at `bi`) keeps the rest of the collision result unchanged |
| ArenaRules.CollideMissStep | script.js:84-91 | a bullet with no hit stays, and the pass moves to the next slot |
| ArenaRules.CollideHitStep | script.js:84-91 | a bullet with `h` hits, `h` short of the remaining length, removes `h` bullets from its slot, and the one that shifts in is passed over |
| ArenaRules.HitSplices | script.js:88 | `h` splices right after a prefix leave element `h` of the rest in that slot |
| ArenaRules.CollideAllStep | script.js:84-91 | a bullet with at least as many hits as bullets remaining removes them all |
| ArenaRules.CollideKeepsSlot | script.js:84-91 | the bullet kept after a bullet's hits is the one at the slot numbered by those hits |
| ArenaRules.CollideOnlyRemovesBullets | script.js:84-91 | the bullets left are a sub-multiset of those before |
| ArenaRules.CollideOnlyRemovesEnemies | script.js:84-91 | the enemies left are a sub-multiset of those before |
| ArenaRules.CollideRemovesOnlyHit | script.js:84-91 | an enemy that no bullet overlaps is kept by the collision pass as often as it occurs |
| ArenaRules.CollideNoOverlap | script.js:84-91 | with no overlapping pair, the collision pass changes nothing |
| ArenaRules.Chase | script.js:95-101 | a chase step keeps the enemy's size and speed |
| ArenaRules.ChaseStepLength | script.js:95-101 | an enemy away from the player's corner steps parallel to the offset to the player, by exactly its speed |
| ArenaRules.ChaseStaysOnPlayer | script.js:98 | an enemy exactly at the player's corner does not move |
| ArenaRules.ChaseMovesToward | script.js:95-101 | an enemy away from the player moves towards it on each axis, and not at all on an axis it shares with the player |
| ArenaRules.ChaseOneUnit | script.js:95-101 | an enemy 200 below the player, with speed 1, moves exactly 1 towards it |
| ArenaRules.Contacts | script.js:102 | at most one contact per enemy |
| ArenaRules.ContactHealth | script.js:102-104 | contact damage never raises health and never makes it negative |
| ArenaRules.ContactHealthTotal | script.js:102-104 | each touching enemy costs 0.5 in the same tick, down to 0 |
| ArenaRules.Tick | script.js:52-108 | after a tick: the player is on the canvas; the radius is at least 50 and does not grow from a radius of at least 50; health stays in [0, old health]; neither array grows |
| ArenaRules.TickIsPhases | script.js:52-108 | the tick is its six phases in the source's order |
| ArenaRules.TickDamageBound | script.js:52-108 | a tick costs at most 0.2 plus 0.5 per enemy alive at its start |
| ArenaRules.TickIdleSafe | script.js:52-108 | with no key held, the player on the canvas and inside the zone, and no enemies, position and health are kept |
| ArenaRules.Decide | script.js:169-179 | defeat exactly when health <= 0; victory exactly when health > 0 and no enemy is left; continue otherwise |
| ArenaRules.Shot | script.js:44-50 | the bullet starts at the player's corner with size 6; its velocity is parallel to the offset to the target and has length 7 |
| ArenaRules.ShotHeadsToTarget | script.js:44-49 | each velocity component has the sign of the target's offset on that axis |
| ArenaGame.Arena.constructor | script.js:12-22 | player and zone at the canvas centre, zone radius half the shorter side, full health, no bullets, five enemies at the given spawn points |
| ArenaGame.Arena.MovePlayer | script.js:54-57 | each coordinate becomes `MoveAxis` of the old one |
| ArenaGame.Arena.ClampPlayer | script.js:60-63 | each coordinate becomes `ClampAxis` of the old one |
| ArenaGame.Arena.ShrinkZone | script.js:65-74 | the radius shrinks; health takes zone damage exactly when the player is outside the new radius |
| ArenaGame.Arena.MoveBullets | script.js:77-81 | the in-place `forEach` with `splice` leaves the array `Swept` of the old one |
| ArenaGame.Arena.AdvanceOne | script.js:78-80 | bullet `i` is advanced and spliced out if it left the canvas |
| ArenaGame.Arena.StrikeEnemies | script.js:85-90 | the inner loop leaves the enemies `Strike` of the old ones and splices the bullet array at `bi` once per hit |
| ArenaGame.Arena.HitTest | script.js:86-89 | on overlap, enemy `ei` is spliced out and the bullet array is spliced at `bi`; otherwise nothing changes |
| ArenaGame.Arena.CollideBullets | script.js:84-91 | the nested loops leave both arrays as `Collide` of the old ones |
| ArenaGame.Arena.ChaseEnemies | script.js:94-107 | every enemy takes its chase step, and health takes contact damage per touching enemy in array order |
| ArenaGame.Arena.ChaseOne | script.js:95-106 | enemy `k` takes its chase step; health drops by 0.5, clamped at 0, exactly when it then touches the player |
| ArenaGame.Arena.Update | script.js:52-108 | the fields after the update are `Tick` of the fields before, and health stays in [0, 100] |
| ArenaGame.Arena.Frame | script.js:166-180 | one update, then the verdict `Decide` on the new health and enemy count |
| ArenaGame.Arena.Shoot | script.js:44-50 | exactly one bullet, `Shot` at the target, is appended |
| PinballRules.DistSqNonNegative | game.js:109 | a squared distance is never negative |
| PinballRules.InReachIffDistance | game.js:109-110 | `distanceTo < 3` holds exactly when the squared distance is below 9 |
| PinballRules.InReachBox | game.js:110 | a point in reach of a bumper is within 3 of it along x and along z |
| PinballRules.NearCount | game.js:108-115 | at most one bumper in reach per bumper in the list |
| PinballRules.AtMostOneBumper | game.js:63-65 | the three bumpers are too far apart for a point to be in reach of two |
| PinballRules.StartOutOfReach | game.js:63-65 | no bumper is in reach of the ball's start (0, 2, 20) |
| PinballRules.Walled | game.js:93-94 | only the velocity changes; its y part and each axis's speed are kept; x is negated exactly when abs(x) > 18 and z exactly when z < -28 |
| PinballRules.Drained | game.js:95-104 | past z = 30 a ball is taken; the game is over exactly when it was or no ball is left; afterwards the ball is on the table (z <= 30) unless the game is over; score unchanged |
| PinballRules.Hit | game.js:109-113 | a bumper in reach (squared distance below 9) adds 500 and reverses the z velocity; otherwise nothing changes; the ball does not move |
| PinballRules.Bumped | game.js:108-115 | the bumper pass keeps the ball's position, its x and y velocity and its z speed, and adds at most 500 per bumper |
| PinballRules.BumpedCounts | game.js:108-115 | the bumper pass adds 500 per bumper in reach and reverses the z velocity once per such bumper |
| PinballRules.FlippersExclusive | game.js:118-123 | the two flippers never fire in the same tick |
| PinballRules.Flipped | game.js:118-123 | left fires: velocity (0.4, vy, -0.5); right fires: (-0.4, vy, -0.5); neither: nothing changes; the y velocity is never touched |
| PinballRules.Tick | game.js:89-124 | one `updateBall`: the score rises by 0 or 500, a drain costs exactly one ball, and game over is never undone |
| PinballRules.TickScore | game.js:108-115 | the score rises by 500 times the bumpers in reach, which is a rise of 0 or 500 |
| PinballRules.TickBalls | game.js:95-100 | balls drop by exactly 1 when the moved ball is past z = 30, else stay; the game is over exactly when it was already or a drain took the last ball |
| PinballRules.TickResetsBall | game.js:101-104 | a drain with balls left ends the tick with the ball at (0, 2, 20) with velocity (0.1, 0, -0.2) |
| PinballRules.TickKeepsPlane | game.js:89-124 | a ball at y = 2 with no y velocity stays so |
| PinballRules.StartPlaying | game.js:3-39 | the start state satisfies the table invariant |
| PinballRules.TickKeepsPlaying | game.js:89-124 | every tick keeps: score non-negative and a multiple of 500; the ball at y = 2 with no y velocity; game over never undone |
| PinballGame.Pinball.constructor | game.js:3-39 | score 0, three balls, the ball at (0, 2, 20) with velocity (0.1, 0, -0.2) |
| PinballGame.Pinball.MoveBall | game.js:90-104 | the move, wall and drain statements leave the fields as `Drained(Walled(Moved(...)))` of the old ones |
| PinballGame.Pinball.HitBumpers | game.js:108-115 | the bumper `forEach` leaves score and velocity as `Bumped` says |
| PinballGame.Pinball.Flip | game.js:118-123 | the two flipper statements leave the fields as `Flipped` of the old ones |
| PinballGame.Pinball.UpdateBall | game.js:89-124 | the fields after the update are `Tick` of the fields before, and the table invariant is kept |

## Left out

- Drawing. This covers the canvas drawing in `script.js` and the THREE.js
  scene, camera, lights, meshes and renderer in `game.js`. It is rendering
  through libraries whose code is not part of this model.
- DOM and event wiring: `resizeCanvas`, listeners and touch buttons.
  - The key map and the flipper buttons are inputs to the tick.
  - The canvas size is fixed when an `Arena` is made, so a resize is not
    modelled. The zone's centre stays at the first size's centre either way.
- HUD writes, which are output only. This includes the `Math.floor` of
  health shown on screen.
- `alert` and `document.location.reload` on game over. These are modelled
  as the flag `over`; the rest of that `updateBall` call still runs, as it
  does in the source.
- `requestAnimationFrame` scheduling. The model is one frame; `Frame`
  returns the verdict that decides whether another is requested.
- The random enemy spawn. The spawn points are a constructor parameter.
- IEEE floating point. All coordinates, speeds, health and radii are exact
  reals, so rounding is not modelled. `x * -1` is exact negation.
- Math.sqrt. It is a parameter, constrained only to be the exact root of
  non-negative arguments.
- ArenaRules.Shot and ArenaGame.Arena.Shoot require the target to differ
  from the player's corner. The source divides by a zero distance there and
  produces a bullet with undefined velocity.
- The pinball bumpers are the fixed list `Bumpers`. Building them at load
  with `createBumper` is part of the scene setup.
