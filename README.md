# 2D tile-maze chase game: a Dafny model of its rules

This project models the rules of the top-down 2D prototype of the 3DMaze
game, with their proofs. The level is a fixed 11 x 15 grid of wall and open
tiles. The player (blue) moves one tile per key press. A monster (red) takes
a random step every 700 ms. A portal (green) is the way out. The game is in
one of three states: `playing`, `won` or `lost`. Stepping onto the portal
wins. Sharing a cell with the monster loses. `won` and `lost` freeze the
board until the restart button is pressed.

Modules:

- `Maze` (maze.dfy): the constants `COLS`, `ROWS` and `MAZE`, and the
  collision oracle `CanMoveTo`. Also the four unit directions, in the order
  up, down, left, right, and cell adjacency.
- `Input` (input.dfy): the keydown handler's mapping from a lower-cased key
  name to a direction.
- `Rules` (rules.dfy): the session as a value (`Session`) and the
  prototype's functions as pure transition functions. These are
  `CheckPortal`, `CheckMonsterCollision`, `AttemptMovePlayer`,
  `MonsterStepAt` and `KeyDown`, plus restart (`INITIAL`). The module also
  defines the session invariant `Valid` and the lemmas about these. A
  session can be run as a sequence of environment events (`Event`, `Run`):
  key presses, monster-timer ticks and restart clicks.
- `Game` (game.dfy): the class `GameSession`. Its fields are the module-level
  variables `player`, `portal`, `monster` and `gameState`, plus the status
  text. Its methods are the handlers, updating the fields in place. Each
  method's postcondition equates the new fields with the matching `Rules`
  function applied to the old fields, and each method keeps `Valid`.

`Valid` is the invariant of every reachable session:

- The portal stays at (13, 9).
- The player and the monster stand on open tiles.
- The monster is never on the portal.
- The game state is exactly what the positions call for: `lost` on the
  monster's cell, `won` on the portal, `playing` otherwise.
- The status text matches the state.

Because the monster is never on the portal, the lose check that runs after
the win check can never overwrite a win (`WinIsNotOverwritten`).

The random draw `valid[Math.floor(Math.random()*valid.length)]` is modelled
in two ways:

- The class method `MonsterStep` and the function `MonsterStepAt` take the
  drawn index `k`. They require it to be below the candidate count whenever
  there are candidates.
- In the event model, a timer tick carries a real `u` in [0, 1) standing
  for `Math.random()`. The index is `Pick(u, n) = floor(u * n)`.
  `PickReachesAll` shows that every index can be drawn.

Timing and restart, as the program has them:

- The monster timer fires every 700 ms (src/main.js:145). The timer itself
  is not modelled.
- Losing means the player and the monster share a cell (src/main.js:113).
- `resetGame` leaves the running monster timer alone (src/main.js:148-154).

## Model

| member | source | states |
|---|---|---|
| `Maze.MazeShape` | src/main.js:9-26 | The map has `ROWS` = 11 rows of `COLS` = 15 tiles each. |
| `Maze.CanMoveTo` | src/main.js:90-92 | True exactly when 0 <= x < `COLS`, 0 <= y < `ROWS` and `MAZE[y][x] == 0`. Every point off the grid counts as a wall. |
| `Maze.OpenCellsAreInterior` | src/main.js:90-92 | Every point `canMoveTo` accepts lies strictly inside the grid: the outer ring of `MAZE` is wall. |
| `Maze.OutOfBoundsBlocked` | src/main.js:90-91 | Every point off the grid is blocked. |
| `Maze.Neighbours` | src/main.js:132-136 | The monster's four probe cells are exactly the cells orthogonally adjacent to it. |
| `Input.KeyDelta` | src/main.js:122-126 | A key selects a move exactly when it is one of the eight movement names, and every move it selects is one of the four unit directions. |
| `Input.KeyDirections` | src/main.js:123-126 | 'arrowup'/'w' go to (0,-1), 'arrowdown'/'s' to (0,1), 'arrowleft'/'a' to (-1,0), 'arrowright'/'d' to (1,0). |
| `Input.KeyMovesOneStep` | src/main.js:123-126 | A movement key targets an orthogonal neighbour of the current cell. |
| `Rules.InitialValid` | src/main.js:29-33 | The start state satisfies the invariant: (1,1) and (7,5) are open, and the monster is off the portal. |
| `Rules.CheckPortal` | src/main.js:105-110 | Sets 'won' and its status text when the player stands on the portal, and otherwise changes nothing. Positions are never touched. |
| `Rules.CheckMonsterCollision` | src/main.js:112-117 | Sets 'lost' and its status text when player and monster share a cell, and otherwise changes nothing. Positions are never touched. |
| `Rules.ChecksIdempotent` | src/main.js:105-117 | Running either check twice equals running it once. |
| `Rules.AttemptMovePlayer` | src/main.js:94-103 | Nothing changes outside 'playing' or when the target is blocked. Otherwise the player lands exactly on (x+dx, y+dy), monster and portal stay, and the state becomes lost, won or playing by the new position. |
| `Rules.MovePreservesValid` | src/main.js:94-103 | A player move keeps the invariant. |
| `Rules.WinIsNotOverwritten` | src/main.js:98-101 | On a valid session, stepping onto the portal always ends 'won'. The lose check run after it cannot override it. |
| `Rules.Filter` | src/main.js:136-137 | The filter keeps exactly the elements that pass the test, and never grows the list. |
| `Rules.FilterIndices` | src/main.js:136-137 | The kept elements are a subsequence of the input: the i-th kept element is input element idx[i], with idx strictly increasing. |
| `Rules.NeighboursFilterInOrder` | src/main.js:132-137 | Filtering the four probe cells keeps them in the order up, down, left, right, and no cell is kept twice. |
| `Rules.Candidates` | src/main.js:132-137 | The candidate list holds exactly the adjacent open non-portal cells, at most four. |
| `Rules.CandidatesInOrder` | src/main.js:132-137 | The i-th candidate is the neighbour in direction idx[i] of up, down, left, right, with idx strictly increasing, so the list keeps that order and holds no cell twice. |
| `Rules.MonsterStepAt` | src/main.js:130-144 | Nothing changes outside 'playing' or without a candidate. Otherwise the monster lands on candidate `k`, which is `valid[index]`. That is an adjacent open non-portal cell. Player and portal stay, and the game is lost exactly when the monster lands on the player. |
| `Rules.Pick` | src/main.js:139 | floor(u * n) for u in [0,1) is a valid index below n. |
| `Rules.PickReachesAll` | src/main.js:139 | Every index below n is drawn by some random value. |
| `Rules.MonsterStep` | src/main.js:130-144 | With a random value in [0,1): the player and portal never move, and the monster either stays or steps to a cell it may enter. Nothing changes outside 'playing'. |
| `Rules.MonsterStepPreservesValid` | src/main.js:130-144 | A monster step keeps the invariant, so the monster never reaches the portal. |
| `Rules.ForcedMove` | src/main.js:136-141 | With exactly one cell the monster may enter, the step goes there whatever the draw. |
| `Rules.Stuck` | src/main.js:138-143 | With no cell the monster may enter, the step changes nothing. |
| `Rules.EveryCandidateReachable` | src/main.js:136-141 | Every adjacent open non-portal cell is the monster's next cell for some random value. |
| `Rules.KeyDown` | src/main.js:120-127 | Outside 'playing', or for a non-movement key, nothing changes. In 'playing', a movement key gives exactly the attempted player move in that key's direction. Monster and portal never move, and the player stays or moves to an adjacent cell. |
| `Rules.Step` | src/main.js:120-157 | Dispatches one event to its handler. A restart click always gives the start session. Once the game is over, a key press or a timer tick changes nothing. |
| `Rules.ResetRestores` | src/main.js:148-153 | Restart yields player (1,1), portal (13,9), monster (7,5) and 'playing', whatever the state before. |
| `Rules.StepPreservesValid` | src/main.js:120-157 | Every key press, monster tick and restart keeps the invariant. |
| `Rules.RunPreservesValid` | src/main.js:120-157 | Any sequence of events keeps the invariant. |
| `Rules.ReachableValid` | src/main.js:29-33 | Every session reachable from start-up satisfies the invariant: positions on open cells, the monster off the portal, the state as the positions call for. |
| `Rules.TerminalAbsorbing` | src/main.js:120-144 | Once 'won' or 'lost', no sequence of key presses and monster ticks changes anything. Only restart leaves those states. |
| `Rules.StartStepRight` | src/main.js:123-126 | From the start, 'd' moves the player to (2,1) and changes nothing else. |
| `Rules.StartBumpWall` | src/main.js:94-103 | From the start, 'w' targets the wall at (1,0) and changes nothing. |
| `Game.GameSession.constructor` | src/main.js:29-33 | The new session is the start state, and it is valid. |
| `Game.GameSession.CheckPortal` | src/main.js:105-110 | The fields afterwards are those `Rules.CheckPortal` gives, and the invariant is kept. |
| `Game.GameSession.CheckMonsterCollision` | src/main.js:112-117 | The fields afterwards are those `Rules.CheckMonsterCollision` gives, and the invariant is kept. |
| `Game.GameSession.AttemptMovePlayer` | src/main.js:94-103 | The fields afterwards are those `Rules.AttemptMovePlayer` gives. Nothing changes outside 'playing', and the invariant is kept. |
| `Game.GameSession.KeyDown` | src/main.js:120-127 | The fields afterwards are those `Rules.KeyDown` gives. Nothing changes outside 'playing' or for other keys, and the invariant is kept. |
| `Game.GameSession.MonsterStep` | src/main.js:130-144 | The fields afterwards are those `Rules.MonsterStepAt` gives for the drawn index. Nothing changes outside 'playing', and the invariant is kept. |
| `Game.GameSession.ResetGame` | src/main.js:148-154 | The fields afterwards are the start state from any prior state, and the invariant holds. |

## Left out

- `draw` (canvas rendering, colours, the overlay text and the empty `requestAnimationFrame` callback) is pure output and is not modelled.
- The repaint interval, the 700 ms monster interval and the DOM event wiring are not modelled. The handlers are methods that the environment calls, and the event model `Run` takes any interleaving of them.
- The status element is modelled as a string field holding the text the code writes. The page's own initial text comes from a page that is not part of this model, so the model starts with "".
- `Math.random` is not modelled, because it is a foreign call. It is replaced by the drawn index `k` or by a real `u` in [0, 1). The model covers which candidates can be chosen but not that the choice is uniform.
- Rounding of the floating-point product `Math.random()*valid.length` is not modelled. It is taken as the exact real product. For at most four candidates, rounding never reaches the candidate count.
- `String.prototype.toLowerCase` is not modelled. Keys are given already lower-cased.
- The position objects are written in place in JavaScript (`player.x = nx`, and a fresh object on restart). The model treats them as values. The three objects are never aliased, so nothing is lost.
- Rules.MonsterStep: its own contract states only the frame, the no-op outside 'playing' and where the monster may go. The full outcome is stated on `MonsterStepAt`, which it calls with the drawn index `floor(u * n)`. That outcome includes which candidate is taken and 'lost'.
- The first-person raycasting variant (ray marching, trigonometry, shading, continuous movement) is not part of this model.
