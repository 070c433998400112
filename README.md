# Wyrm: a verified model of the game simulation

Wyrm is a snake-style browser game. The player steers a serpent (the
*wyrm*) around a grid with the arrow keys or WASD, with on-screen buttons or
with swipes. Each tick the wyrm moves one cell. It dies on hitting a wall or
its own body, and it grows when it eats food. There are three food kinds,
worth 1, 2 and 3 points.

This project models the simulation in `game.js` and proves properties of
it. The source keeps the simulation in module-level variables: `wyrm`,
`direction`, `nextDirection`, `food`, `score` and `isGameRunning`. The
model makes them the fields of one class, `Game.Game`. The canvas width and
height are constant fields of that class.

The files:

- `wrappers.dfy` (`Wrappers`): `Option`. It stands for the source's `null`
  food and for "this event names no heading".
- `grid.dfy` (`Grid`): cells, the four headings as unit vectors, and the
  wall bound. It also holds the start position, the food kinds with their
  points and weights, and how random numbers become a candidate cell.
- `input.dfy` (`Input`): the three input channels. Each one turns its event
  into at most one requested heading. `Steer` is the shared rule for when a
  request replaces the pending heading.
- `rules.dfy` (`Rules`): functions that specify the class. They cover the
  collision test, the body after a move, which placement attempt is kept,
  and the body a reset builds. The lemmas about them are here too.
- `game.dfy` (`Game`): the class. Its methods are the source's functions:
  the tick, the two scans over the body, food placement with its retry loop,
  reset, start, restart, game over, and the three input handlers. Each
  method's postcondition gives the new state in terms of the old one. Two
  client methods, `ClientStart` and `ClientTicks`, play a short session
  using only those contracts.

Randomness is an input. `Math.random()` is replaced by two parameters:

- `r`, the draw that picks the food kind;
- `draws`, one pair of numbers in [0, 1) per placement attempt, at least
  100 pairs.

`Rules.RandomDraws` states these ranges. Each candidate coordinate is
`floor(draw * pixels / 20)`, computed in exact real arithmetic (see
"## Left out" for how this relates to the source's doubles).

In these points the model follows what game.js does:

- The wall test compares a coordinate with `width / 20` and `height / 20`
  without rounding them down (game.js:181-186). For integer coordinates this
  is the same as `0 <= x && x * 20 < width` (`Grid.InBoundsIsRealBound`).
- The session state is the single flag `isGameRunning` (game.js:41, 74, 82,
  248); there is no separate idle or over state.
- `gameStep` does not test `isGameRunning` (game.js:145-177); the tick is
  stopped only by clearing the timer.
- The food test in the tick first checks that food exists
  (`food && ...`, game.js:165).

## Model

| member | source | states |
|---|---|---|
| `Grid.Opposite` | game.js:111-140 | the reverse heading is the negated unit vector, and no heading is its own reverse |
| `Grid.InBoundsIsRealBound` | game.js:181-186 | the wall test with unrounded real division accepts exactly the integer cells with 0 <= x, x*20 < width, 0 <= y, y*20 < height |
| `Grid.StartX` | game.js:89 | the initial head column floor(width / 20 / 4), computed over reals, equals the integer quotient width / 80 |
| `Grid.CenterY` | game.js:90 | the initial row floor(height / 20 / 2), computed over reals, equals height / 40 |
| `Grid.RealFloorOfQuotient` | game.js:89-90 | the floor of the real quotient of two naturals is their integer quotient |
| `Grid.Points` | game.js:27-31 | every food kind is worth between 1 and 3 points (apple 1, shamrock 2, mistletoe 3) |
| `Grid.KindFor` | game.js:206-214 | a draw in [0, 1) picks the kind whose interval of the weight partition contains it: apple below 0.6, shamrock below 0.85, mistletoe above |
| `Grid.KindForFollowsWeights` | game.js:205-214 | the thresholds 0.6 and 0.85 split [0, 1) into consecutive intervals of lengths 0.6, 0.25 and 0.15, one per kind, and the weights sum to 1 |
| `Grid.ScaledInRange` | game.js:221-222 | floor(draw * pixels / 20) with a draw in [0, 1) lies in [0, pixels / 20) |
| `Grid.CandidateInBounds` | game.js:220-224 | on a non-empty canvas every candidate cell passes the wall check |
| `Input.PermitsIffNotOpposite` | game.js:111-140 | each channel's per-component guard (for example "up needs direction.y != 1") rejects exactly the reverse of the committed heading |
| `Input.Steer` | game.js:106-141 | an input event changes nothing when the game is not running or names no heading. Otherwise the requested heading replaces the pending one exactly when it does not reverse the committed heading. So a pending heading that does not reverse the committed one never comes to reverse it |
| `Input.LaterRequestWins` | game.js:112-141 | between ticks, a later accepted request overwrites an earlier one, and a rejected or unrecognised one keeps the earlier result |
| `Input.LowerAscii` | game.js:109 | case folding keeps the length and lower-cases each character independently |
| `Input.LowerAsciiIdempotent` | game.js:109 | folding an already folded key changes nothing |
| `Input.KeyRequest` | game.js:109-141 | a key requests a heading exactly when its lower-cased name is one of that heading's two names (arrowup/w, arrowdown/s, arrowleft/a, arrowright/d); any other key requests none |
| `Input.KeyRequestIgnoresCase` | game.js:109-141 | a key and its lower-cased spelling request the same heading |
| `Input.KeyRequestExamples` | game.js:112-141 | "ArrowUp" and "W" request up, "D" requests right, and "Enter" requests nothing |
| `Input.ButtonRequest` | game.js:465-479 | a button requests a heading exactly when its data-direction value is that heading's name (up, down, left, right, case sensitive); any other value requests none |
| `Input.SwipeRequest` | game.js:432-454 | a swipe names a heading iff its dominant displacement exceeds 30 strictly. It is horizontal iff abs(dx) > abs(dy) strictly. The chosen heading points along the dominant displacement, whose size is its projection on that heading |
| `Input.SwipeTieIsVertical` | game.js:432-443 | a swipe with abs(dx) == abs(dy) never names left or right |
| `Input.SwipeReversed` | game.js:432-454 | the reversed swipe names a heading iff the swipe does, and that heading is the opposite one |
| `Rules.TailCellCollides` | game.js:190-195 | moving into the cell the tail is about to vacate is a collision, because the self check scans the body before the move |
| `Rules.NextBody` | game.js:162-173 | after a move that does not collide, the new head is first and every old segment shifts back one place. The length grows by one when the move eats and is unchanged otherwise |
| `Rules.NextBodyCells` | game.js:162-173 | eating adds the head's cell to the multiset of body cells. Moving replaces the tail's cell by the head's cell |
| `Rules.NextBodyDistinct` | game.js:156-173 | a move that passes the self check keeps all segments pairwise distinct |
| `Rules.FoodStaysClear` | game.js:165-173 | food that lies clear of the body stays clear after a move that does not eat it |
| `Rules.PlacementIndex` | game.js:218-226 | the kept attempt is among the first 100. Every earlier candidate was occupied, and the kept one is free unless it is the 100th |
| `Rules.PlacementIndexIsFirstFree` | game.js:218-226 | those conditions determine the kept attempt uniquely |
| `Rules.SpawnedPlacement` | game.js:201-228 | a spawn lands off the body whenever one of the 100 candidates is free. On a non-empty canvas it lands inside the playfield |
| `Rules.InitialBody` | game.js:89-96 | the reset body is three pairwise distinct cells (W/80 - i, H/40) for i = 0, 1, 2. Each segment lies one step right of the one behind it |
| `Rules.MoveExample` | game.js:145-173 | body (5,5),(4,5),(3,5) heading right on a 10 by 10 grid, with no food ahead, moves to (6,5),(5,5),(4,5) |
| `Rules.EatExample` | game.js:162-169 | the same body eating at (6,5) becomes (6,5),(5,5),(4,5),(3,5) |
| `Rules.WallExample` | game.js:185-187 | heading left from column 0 collides with the wall |
| `Game.Game.constructor` | game.js:35-41 | the state before any start: empty body, both headings right, no food, score 0, not running |
| `Game.Game.IsPositionOccupied` | game.js:232-239 | the scan answers true iff the cell is one of the body's segments |
| `Game.Game.CheckCollision` | game.js:180-198 | the wall test comes first, so any cell off the playfield collides. Inside the playfield, a cell collides iff it is on the current body, tail included |
| `Game.Game.SpawnFood` | game.js:201-229 | the new food has the kind picked once from r and the cell of the kept attempt, tested against the current body. Nothing else changes |
| `Game.Game.Reset` | game.js:87-103 | the body is the initial body, both headings are right, the score is 0, food is spawned against the new body, and the running flag is untouched |
| `Game.Game.StartGame` | game.js:71-76 | a reset, after which the game runs |
| `Game.Game.RestartGame` | game.js:79-84 | the same full reinitialisation as a start, after which the game runs |
| `Game.Game.GameOver` | game.js:247-249 | clears the running flag and nothing else |
| `Game.Game.Step` | game.js:145-177 | the pending heading is committed. On a collision the body, score and food are unchanged and the game stops. An eating move grows the body by the head, adds the kind's points and respawns food against the grown body. Any other move drops the tail and keeps score and food. The invariant holds afterwards |
| `Game.Game.HandleKeyPress` | game.js:106-142 | the pending heading becomes `Steer` of the key's request. The invariant (no reversal, distinct segments) is kept |
| `Game.Game.HandleButton` | game.js:461-480 | the pending heading becomes `Steer` of the button's request, with the same invariant kept |
| `Game.Game.HandleTouchEnd` | game.js:423-455 | the source interleaves the sign test with the guard. The result still equals `Steer` of the classified swipe, and the invariant is kept |

## Left out

- Rendering: the `roundRect` polyfill, `render`, `drawGrid`, `drawWyrm`, `drawEyes` and `drawFood`. They only draw, and their colour intensity is floating point.
- DOM wiring: `init`, the listener registration, `updateScore`, the final-score text, the screen show/hide toggles and `preventDefault`. These are browser I/O.
- The `setInterval`/`clearInterval` tick driver and `GAME_SPEED`. This is timer scheduling. Only the `isGameRunning` flag that goes with it is modelled.
- The distribution of `Math.random()`. Random numbers are parameters, so there is no claim about how often each food kind appears.
- `handleTouchStart` and `handleTouchMove`. They record coordinates and stop scrolling. The swipe is modelled from integer displacements.
- Input.LowerAscii: folds only the ASCII letters A-Z, not all of Unicode as `toLowerCase` does. No non-ASCII character lower-cases to one of the ASCII letters the eight key names use: the Kelvin sign becomes "k", which none of them contains, and "İ" becomes two characters. So the heading a key requests is the same.
- Game.Game.Step: requires a non-empty body. In the source an empty body makes `wyrm[0]` undefined and the tick throws. The timer starts only after a reset has built three cells.
- Game.Game.SpawnFood: does not return the number of attempts. That count is the kept index plus one, so it is between 1 and 100 by `Rules.PlacementIndex`.
- Floating point: game.js computes the grid size, the start cell and each candidate coordinate in IEEE-754 doubles (game.js:89-90, 181-182, 202-203, 221-222); the model uses exact reals. For every integer canvas size the wall test and the start cell agree exactly. A candidate cell can differ only for a draw within one rounding step below a cell boundary, where the double product `Math.random() * gridWidth` may round up to the integer k and give cell k where the model gives k - 1.
