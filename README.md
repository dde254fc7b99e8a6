# Snake-iOS game logic in Dafny

This is a model of the game logic of the Snake-iOS app, with proofs. It covers three parts.

- **The snake's kinematics.** The body is a sequence of `(row, column)` cells, head first. Each segment has a queue of pending moves, and a segment follows the path of the segment ahead of it one tick later. The app has two copies of this code, the `Snake` class and `BoardViewModel`. Both are modelled as Dafny classes: `SnakeModel.Snake` and `Board.BoardViewModel`. Their loops are proved against the value functions of `Kinematics`. `Kinematics` states the formation invariant:
  - queue `i` holds `i` moves;
  - each queue is the one ahead of it with one older move in front;
  - each segment is one queued step behind its predecessor.

  It also proves that every tick and every growth keeps the formation, and that the snake follows the head's path exactly.
- **The board's cell rules (`BoardView`).**
  - The squares are a map from `(row tag, column tag)` to `SquareType` in a shared `Squares.Grid` object. The view and every copy of the model see the same squares, as they see the same `UIView`s in the app.
  - `moveSnake`, `spawnFood`, the tick `makeMove`, `createSquares`, `squareStackFactory` and `restart` are methods of `Board.BoardView`.
  - Each method is proved against a function of `Rules` over a value `BoardState`: the squares, score, pending growth, whether the timer runs, both reward coordinates, and the random draws still to come.
- **The AI's move chooser (`AI`).** `checkSquare`, the depth-capped greedy rollout `getRewardForMove` and the selection in `getMove` are functions of `Scoring`. The `Board.AI` methods are proved equal to them. `checkDirection` reads squares through a fresh copy of the model that shares the live squares. The simulation model passed down the rollout is moved but never read. So the result of `getMove` is a function of the live squares, the model's reward coordinate and the head, and the proofs establish this.

Facts about the code that the model keeps:

- `Move.allCases` enumerates left, right, up, down. Ties in the sort go to the first of these.
- Food scores exactly 20. The rollout's early stop needs a score above 20, so reaching food does not stop a rollout (`Scoring.RolloutPassesFood`).
- `addSnakePart` and `addPart` grow onto any existing square, whatever its type. They do not require an empty one.
- `createSquares` builds every square empty. The four cells of the initial body are only coloured, so their type stays empty (finding (b) below).
- `spawnFood` looks a draw `(x, y)` up as row `x`, column `y`, although `x` is drawn below the column count and `y` below the row count (finding (a) below).
- The AI's copies share the live squares. They are not independent clones.
- `restart` leaves `pendingFood` as it was.
- `restart` yields a four-segment body only on a board of at least one row and four columns. With fewer columns, the body is shorter.
- A move into a vetoed square is not strictly never chosen. Its total is at most the veto plus 800, and the total of any move into a free square is at least the veto (`Scoring.VetoedMoveTotal`).

Modules, one file each:

- `Wrappers`: `Option`.
- `Geometry`: coordinates, `Move`, steps.
- `Squares`: square types, lookup, the shared grid.
- `Kinematics`.
- `SnakeModel`: Snake.swift.
- `Scoring`.
- `Rules`.
- `Board`: BoardViewModel, BoardView and AI. These three share one module because they refer to one another.

## Model

| member | source | states |
|---|---|---|
| Geometry.Step | Snake/AI.swift:72-83 | up and down change the row by -1 and +1, left and right the column by -1 and +1; the result is always adjacent to the input |
| Geometry.Behind | Snake/Snake.swift:83-92 | the cell where a new tail part goes is one step against the move, so stepping from it by that move returns to the tail |
| Geometry.AllCasesComplete | Snake/BoardViewModel.swift:21-26 | every direction occurs in `Move.allCases` |
| Squares.Grid.constructor | Snake/BoardView.swift:37-44 | a new vertical stack holds no squares |
| Squares.Grid.Get | Snake/BoardView.swift:146-153 | the lookup by row and column tag is `nil` exactly when no square has those tags, and otherwise gives that square's type |
| Squares.Grid.Set | Snake/BoardView.swift:172-173 | writing a square's type changes that square only and keeps the set of squares |
| Squares.Grid.AddRow | Snake/BoardView.swift:118-120 | arranging a row adds exactly that row's squares under its tag |
| Kinematics.AppendThenDrop | Snake/Snake.swift:43-52 | the two loops of a tick with a move (append to every queue, then take and drop the first of each segment's queue) give the segment moves and queues of one combined step |
| Kinematics.SeededFormation | Snake/Snake.swift:18 | the seeded queues `[], [R], [R,R], [R,R,R]` have lengths 0 to 3, each lags the one ahead, and they are in formation with the initial body `(0,3),(0,2),(0,1),(0,0)` |
| Kinematics.TickFollows | Snake/Snake.swift:43-54 | a tick with move m keeps the formation, steps the head by m, and puts every other segment on the cell its predecessor held before the tick |
| Kinematics.CoastKeepsFormation | Snake/Snake.swift:36-41 | a `nil` tick translates every segment by `currentMove` and keeps the formation with the queues untouched |
| Kinematics.MakeMoveKeepsFormation | Snake/Snake.swift:35-55 | both kinds of tick keep the formation |
| Kinematics.GrowthKeepsFormation | Snake/Snake.swift:80-97 | a body in formation of two or more segments always has a growth spot, and growing there with queue `[move] + tailQueue` keeps the formation |
| Kinematics.RunKeepsFormation | Snake/Snake.swift:35-55 | any sequence of ticks keeps the formation |
| Kinematics.FollowsPredecessor | Snake/Snake.swift:47-52 | after one more tick each segment stands where its predecessor stood |
| Kinematics.FollowsHeadPath | Snake/Snake.swift:47-52 | after k ticks segment i is where the head was after k - i ticks (exact path following) |
| Kinematics.GrownPartRetracesTail | Snake/Snake.swift:94-97 | a new tail part starts one queued step behind the old tail and after every further tick stands where the old tail stood one tick earlier |
| SnakeModel.SnakeDelegate.MoveSnake | Snake/Snake.swift:10-13 | the delegate records each `(from, to)` notification in order |
| SnakeModel.Snake.constructor | Snake/Snake.swift:15-26 | a new snake moves right with no segments, the seeded queues and no delegate |
| SnakeModel.Snake.WithState | Snake/Snake.swift:28-33 | the convenience initialiser takes the given move, segments and queues |
| SnakeModel.Snake.Move | Snake/Snake.swift:57-76 | the result is the neighbouring cell in the move's direction, and the delegate hears `(square, result)` exactly once |
| SnakeModel.Snake.MakeMove | Snake/Snake.swift:35-55 | the new body, queues and current move are those of the kinematics for the input (`nil` coasts, a move is queued then popped), the delegate hears one transition per segment head first, and the formation is kept |
| SnakeModel.Snake.StepSegments | Snake/Snake.swift:36-41 | segment i is stepped by `moves[i]`, head to tail, and each step is reported in order |
| SnakeModel.Snake.AppendToQueues | Snake/Snake.swift:43-45 | every queue gets the move appended |
| SnakeModel.Snake.PopSegments | Snake/Snake.swift:47-52 | each of the first n queues loses its first move, and segment i is stepped by that move and reported, head to tail |
| SnakeModel.Snake.PopSegment | Snake/Snake.swift:48-51 | one segment steps by its queue's first move, which it drops, and the step is reported |
| SnakeModel.Snake.AddPart | Snake/Snake.swift:78-101 | with a growth spot and a delegate square there of any type, the part and its queue are appended and the square becomes snake; otherwise nothing changes; the formation is kept |
| SnakeModel.Snake.Reset | Snake/Snake.swift:103-107 | back to moving right, no segments, the seeded queues |
| SnakeModel.Snake.Insert | Snake/Snake.swift:109-111 | the element is placed before `index`, with the prefix and suffix kept |
| SnakeModel.Snake.Append | Snake/Snake.swift:113-115 | the element is added at the tail |
| SnakeModel.Snake.Copy | Snake/Snake.swift:120-128 | a fresh snake with equal move, segments and queues and no delegate; the fields are values, so later changes to one are not seen by the other |
| Scoring.CheckSquare | Snake/AI.swift:110-124 | food scores 20; when the empty-square term is non-negative a score is negative exactly for a missing, snake or obstacle square and is then -100000; when that term is at most 20 at every positive distance and the reward square is not empty, every score is at most 20 |
| Scoring.BestIndex | Snake/AI.swift:51-54 | the chosen entry's score is at least every entry's score, and every earlier entry scores strictly less (the first maximum, as a stable descending sort puts first) |
| Scoring.Choose | Snake/AI.swift:17-45 | a move is chosen exactly when the snake has a head, and its total is at least the total of every move |
| Scoring.RolloutAtCap | Snake/AI.swift:48-49 | at depth 40 the rollout returns its accumulated reward unchanged |
| Scoring.RolloutPassesFood | Snake/AI.swift:55-59 | a best score of exactly 20 (food) does not stop the rollout: it moves onto that square and recurses one level deeper with 20 added |
| Scoring.RolloutBoxedIn | Snake/AI.swift:51-57 | when every neighbour ends the game the rollout stops at once with exactly one veto added |
| Scoring.RolloutUpperBound | Snake/AI.swift:55-59 | if the empty-square term is at most 20 at every positive distance and the reward square is not empty, a rollout from depth `iterations` adds at most 20 x (40 - iterations) |
| Scoring.RolloutLowerBound | Snake/AI.swift:55-59 | if the empty-square term is non-negative, a rollout loses at most one veto |
| Scoring.VetoedMoveTotal | Snake/AI.swift:25-32 | while the reward square is not empty, a move into a square that ends the game totals at most the veto plus 800, and a move into an empty or food square totals at least the veto |
| Rules.AsWrittenMissesLowerRows | Snake/BoardView.swift:186-189 | as written, on a board with more rows than columns no draw names square `(cols, 0)`, though it exists |
| Rules.AsWrittenSpawnMissesLowerRows | Snake/BoardView.swift:185-193 | as written, with every draw in range, the square that receives food lies in row `x < cols` and column `y < rows`, so on a board taller than wide the lower rows never get food |
| Rules.DrawsCoverBoard | Snake/BoardView.swift:186-189 | with the axes in order every square is named by some draw and every draw names a square of the board |
| Rules.FirstEmptyDraw | Snake/BoardView.swift:185-197 | the found draw, looked up as row `x`, column `y`, names an empty square and every earlier draw does not; with none found, no draw names an empty square |
| Rules.SpawnFoodRule | Snake/BoardView.swift:185-197 | food placement keeps the set of squares, the score, the pending flag and the timer |
| Rules.SpawnFoodPlaces | Snake/BoardView.swift:186-193 | at most one square changes, from empty to food, and then it is both reward coordinates; with nothing placed the rewards stay; when some draw `(x, y)` names an empty square at row `x`, column `y`, food is placed |
| Rules.MoveSnakeRule | Snake/BoardView.swift:155-183 | a transition keeps the set of squares and uses up draws only when it eats |
| Rules.MoveSnakeOffGrid | Snake/BoardView.swift:156-181 | with either square missing: game over (timer stopped) and nothing else changes |
| Rules.MoveSnakeBlocked | Snake/BoardView.swift:165-171 | into a snake or obstacle square: game over and nothing else changes |
| Rules.MoveSnakeIntoEmpty | Snake/BoardView.swift:172-175 | into an empty square: the source becomes empty, the destination snake, and nothing else changes |
| Rules.MoveSnakeEats | Snake/BoardView.swift:158-173 | into food: one more point, growth pending, the timer kept, the source emptied and the destination snake; any other changed square went from empty to food at the new reward |
| Rules.MoveSnakeKeepsFoodAtReward | Snake/BoardView.swift:155-197 | if every food square is at the model's reward, it still is after any transition |
| Rules.ApplyAllKeepsFoodAtReward | Snake/BoardViewModel.swift:62-82 | the same holds after the transitions of a whole tick |
| Rules.ApplyAllGameOver | Snake/BoardView.swift:165-181 | once the timer stops no transition restarts it; the timer still runs only if every transition found both squares |
| Rules.AdvanceWorld | Snake/BoardViewModel.swift:62-82 | a move of the model keeps the number of segments and queues and the set of squares |
| Rules.Grow | Snake/BoardViewModel.swift:121-144 | growth keeps the set of squares and the current move |
| Rules.Grown | Snake/BoardView.swift:129-132 | after realising pending growth the flag is cleared |
| Rules.Play | Snake/BoardView.swift:134-141 | the move of a tick keeps the set of squares |
| Rules.Tick | Snake/BoardView.swift:128-142 | a tick keeps the set of squares |
| Rules.TickGrowth | Snake/BoardView.swift:128-142 | a tick grows the snake by one exactly when growth was pending, the growth spot exists and a square is there; otherwise the length is unchanged |
| Rules.TickKeepsFormation | Snake/BoardView.swift:128-142 | every tick (growth, then an AI or user move) keeps the kinematic formation |
| Rules.TickKeepsFoodAtReward | Snake/BoardView.swift:128-142 | every tick keeps food only at the model's reward |
| Rules.RowZeroBody | Snake/BoardView.swift:55-61 | row 0 contributes `min(width, 4)` cells, head first from column `min(width, 4) - 1` down to 0, which is the initial body on a board at least four wide |
| Rules.RowCellsAsWritten | Snake/BoardView.swift:53-65 | as written every square of a row is empty |
| Rules.RowCells | Snake/BoardView.swift:53-65 | the corrected row: with the body marked, columns 0 to 3 of row 0 are snake and every other square is empty |
| Rules.InitialCellsMarkedAt | Snake/BoardView.swift:118-120 | the corrected board with the body marked: a square exists exactly within its rows and columns, and is snake on the four body squares of row 0 and empty elsewhere |
| Rules.InitialCellsMarkedShape | Snake/BoardView.swift:118-120 | the corrected board is the full rectangle, square by square as above |
| Rules.SpawnFoodKeepsInitialShape | Snake/BoardView.swift:118-125 | spawning the first food on the board `createSquares` builds keeps the rectangle, and afterwards food lies only at the reward |
| Rules.InitialCellsAsWritten | Snake/BoardView.swift:118-120 | the board `createSquares` builds is the full rectangle with every square empty |
| Rules.MarkedBodyRepelsFood | Snake/BoardView.swift:189-193 | with the body marked as snake, food placement never lands under the body and the body stays marked |
| Rules.InitialBodyMarked | Snake/BoardView.swift:55-61 | on the corrected board, of at least one row and four columns, the initial body sits on snake squares |
| Rules.InitialCoastTick | Snake/BoardViewModel.swift:63-68 | the first coasting tick to the right rewrites exactly the squares the four segments leave and enter |
| Rules.AsWrittenFirstFood | Snake/BoardView.swift:185-193 | on the board `createSquares` builds, of at least two rows and columns, the draw (0, 1) is in range and puts the food on row 0, column 1 |
| Rules.FoodUnderBodyErased | Snake/BoardView.swift:172-173 | food on the initial body's third segment is gone after one coasting tick, with no point scored |
| Rules.AsWrittenFoodUnderBody | Snake/BoardView.swift:55-65 | as written, the draw (0, 1) puts the first food on square (0, 1), which is the body's third segment, and every other square stays empty |
| Rules.AsWrittenFoodErased | Snake/BoardView.swift:46-68 | as written, on a board of at least two rows and six columns, that food is erased by the first tick: no square holds food and the score is still 0 |
| Rules.AsWrittenBodyPassable | Snake/BoardView.swift:155-175 | as written, the head stepping back onto the second segment's square (0, 2) of the built board is an ordinary move: the timer keeps running |
| Rules.MarkedBodyBlocks | Snake/BoardView.swift:165-171 | on the corrected board that same step ends the game and changes nothing else |
| Board.BoardViewModel.constructor | Snake/BoardViewModel.swift:28-53 | a new model: reward (0, 0), zero frame, no delegate, moving right, no segments, the seeded queues, no rows |
| Board.BoardViewModel.Restart | Snake/BoardViewModel.swift:55-60 | back to moving right, no segments, the seeded queues |
| Board.BoardViewModel.GetSquare | Snake/BoardViewModel.swift:84-96 | `nil` exactly when no row and column tag match, otherwise that square's type |
| Board.BoardViewModel.Move | Snake/BoardViewModel.swift:100-119 | the neighbouring cell in the move's direction; the delegate applies the transition from the old cell to it; without a delegate nothing else changes |
| Board.BoardViewModel.MakeMove | Snake/BoardViewModel.swift:62-82 | body, queues and current move as the kinematics say; the delegate's board advances by the tick's transitions head first; without a delegate the reward is untouched; formation kept |
| Board.BoardViewModel.StepSegments | Snake/BoardViewModel.swift:63-68 | the coasting loop steps each segment and applies each transition in order |
| Board.BoardViewModel.AppendToQueues | Snake/BoardViewModel.swift:70-72 | every queue gets the move appended |
| Board.BoardViewModel.PopSegments | Snake/BoardViewModel.swift:74-79 | each segment steps by its queue's first move, which is dropped, and the board applies each transition, head to tail |
| Board.BoardViewModel.PopSegment | Snake/BoardViewModel.swift:75-78 | one segment steps by its queue's first move, which it drops, and the board applies that transition |
| Board.BoardViewModel.AddSnakePart | Snake/BoardViewModel.swift:121-144 | with the view as delegate the snake and board grow as `Rules.Grow` says (the part and its queue appended together, the square made snake); without a delegate nothing changes; formation kept |
| Board.BoardViewModel.Copy | Snake/BoardViewModel.swift:147-159 | a fresh model with the same move, body, queues, reward, frame and rows, and no delegate |
| Board.BoardView.constructor | Snake/BoardView.swift:92-111 | a fresh model whose delegate is the view, an AI reading that model, no squares, score 0, timer stopped |
| Board.BoardView.GetSquare | Snake/BoardView.swift:146-153 | a found square is in the stack with that type, and on a built board the lookup is `nil` exactly off its rows and columns |
| Board.BoardView.MoveSnake | Snake/BoardView.swift:155-183 | the new board is `Rules.MoveSnakeRule` of the old one |
| Board.BoardView.SpawnFood | Snake/BoardView.swift:185-197 | the new board is `Rules.SpawnFoodRule` of the old one: draws `(x, y)` are looked up as row `x`, column `y` and tried in order until one names an empty square |
| Board.BoardView.SquareStackFactoryAsWritten | Snake/BoardView.swift:46-68 | as written the row is all empty, and row 0 puts its first four columns into the body, head first |
| Board.BoardView.SquareStackFactory | Snake/BoardView.swift:46-68 | the corrected row with the body marked, `Rules.RowCells`; row 0 puts its first four columns into the body, head first |
| Board.BoardView.AddToBody | Snake/BoardView.swift:57-61 | the cell goes in front of the body, whether the body is empty or not |
| Board.BoardView.CreateSquares | Snake/BoardView.swift:113-126 | the board's size is the frame in whole 20-point squares, the all-empty rows are built and shared with the model, the timer starts and food is spawned |
| Board.BoardView.BuildSquares | Snake/BoardView.swift:113-122 | the sizes, the all-empty squares `Rules.InitialCellsAsWritten` and the body of row 0 |
| Board.BoardView.AddRows | Snake/BoardView.swift:118-120 | rows `0..<rows` of `squareStackFactory` are added to the empty stack, giving `Rules.InitialCellsAsWritten` |
| Board.BoardView.Restart | Snake/BoardView.swift:70-90 | timer stopped then restarted, score 0, model reset, fresh all-empty squares built and first food spawned, obstacles cleared, `pendingFood` kept; food lies only at the model's reward, and the board is ready to tick |
| Board.BoardView.Clear | Snake/BoardView.swift:72-87 | the part of `restart` before the rebuild: no squares, score 0, timer stopped, reward and obstacles cleared, the model reset |
| Board.BoardView.MakeMove | Snake/BoardView.swift:128-142 | one tick is `Rules.Tick`: pending growth first, then one AI or user move; stack, size and obstacles are kept and the board stays ready |
| Board.BoardView.GrowIfPending | Snake/BoardView.swift:129-132 | pending growth realised and the flag cleared |
| Board.BoardView.Play | Snake/BoardView.swift:134-141 | the AI's chosen move or the user's input is applied, as `Rules.Play` says |
| Board.BoardView.Advance | Snake/BoardView.swift:137-140 | the model's move with the view applying each transition |
| Board.AI.constructor | Snake/AI.swift:10-15 | the AI reads the given model |
| Board.AI.CheckDirection | Snake/AI.swift:85-108 | the move with the score of the square it leads to, on the live squares and reward, though read through a moved copy |
| Board.AI.ScoreCandidates | Snake/AI.swift:51 | the four moves scored in `Move.allCases` order |
| Board.AI.GetRewardForMove | Snake/AI.swift:47-70 | the result is `Scoring.Rollout` of the live squares, reward and head, whatever the simulation model does |
| Board.AI.Simulate | Snake/AI.swift:58 | a move on the simulation model leaves it without a delegate and with a queue for every segment |
| Board.AI.ScoreMove | Snake/AI.swift:27-29 | the total of a move: its first square's score plus the rollout from there |
| Board.AI.ScoreAll | Snake/AI.swift:19-32 | every move of `Move.allCases` with its total, in order |
| Board.AI.GetMove | Snake/AI.swift:17-45 | no move without a model or a head; otherwise `Scoring.Choose`, the first move of best total |

## Left out

- Rendering and layout are left out because they are UI, not logic. This covers `SquareView.updateView` and its food subview, colours, stack spacing and constraints, the leftover margin in `createSquares`, `Globals.swift`'s view helpers and all of `ViewController.swift`.
- The tick timer is the flag `timerRunning`. Invalidating the timer clears the flag, and scheduling it sets the flag. Each timer firing is a call to `BoardView.MakeMove`.
- `wHPair`'s `didSet` and the `DispatchQueue.main.async` in `restart` run their work later on the main queue. The model calls `createSquares` and `restart` directly.
- Board.BoardView.Play applies the AI's move at once. The source passes it to a completion that runs on the main queue after `getMove` returns, so interleavings with other main-queue work are not modelled.
- `getMove`'s loop is sequential. Its `DispatchGroup` enters and leaves synchronously, so that loses nothing.
- `spawnFood`'s `Int.random` draws are the sequence `draws` that the board is built with. The source retries without bound when a draw names a missing or non-empty square. With the draws used up, the model places no food. On a board with no empty square, the source would instead recurse forever.
- `spawnObstacles`, which is random and never called, is left out. The obstacle list itself is kept: `restart` clears it.
- `distanceToReward`, `distance`, `distanceToSnake`, `distanceToObstacle` and their `Decimal`/`sqrt`/`Double` arithmetic are left out. The empty-square score `5 / distance` is the parameter `inverseDistance` of the squared distance. Bounds on it are hypotheses of the lemmas that need them. `distanceToSnake` and `distanceToObstacle` are never used in scoring.
- Scores are exact `real`s rather than `Double`s, so the infinite score of an empty square at the reward itself has no counterpart (see the Scoring.RolloutUpperBound line below).
- Coordinates and the score are unbounded integers. Swift's 64-bit `Int` would trap on overflow, which no game reaches.
- The frame size `wHPair` is a pair of natural numbers of points, not `CGFloat`s. Truncating `Int(w / 20)` is whole-number division.
- `BoardView.copy()`, `GameDelegate.updateScore`, the `print` of the score on game over, and the `BoardViewDelegate` protocol's own members are left out. They are UI plumbing that does not change the game state.
- The process-wide `score` and `ai` are fields of `Board.BoardView`.
- `BoardViewModel.squares` is never read, so it is left out. So are `Snake`'s trivial accessors `isEmpty`, `first`, `count` and the subscript.
- Weak references, `NSCopying`/`NSZone` and the `as!` casts are left out. Copies have value semantics, except that the squares are shared.
- `getRewardForMove`'s branch for an empty candidate list is not modelled as a separate path, because the list always has four entries. The same holds for `getMove`'s `.right` fallback. `getMove` with an empty snake never calls its completion, and the model returns no move.
- Board.AI.Simulate states only that the simulation model keeps no delegate and a queue per segment. It does not state the model's new body, because the rollout never reads it.
- Board.BoardView.CreateSquares requires an empty stack. It is called on first appearance and after `restart` has removed every square. Calling it on a built board would stack a second set of rows, which is not modelled.
- Board.BoardView.MakeMove, Board.BoardView.Play and Board.BoardView.Advance require a built board, which `createSquares` provides before it starts the timer.
- SnakeModel.Snake.Insert requires an index within the body. Swift's `insert(_:at:)` traps on any other index.
- Scoring.RolloutUpperBound and Scoring.VetoedMoveTotal require the reward square not to be empty. The source's term `5 / sqrt(0)` is infinite on that square, and the model's real-valued `inverseDistance(0)` cannot be infinite. That square becomes empty when food placed under the body is erased (finding (b)). There a rollout reaching the reward scores infinity and stops, and neither bound holds.
- The corrected halves of the two findings, `Rules.DrawnCell` and `Board.BoardView.SquareStackFactory` with `Rules.InitialCellsMarked`, are stated and proved on their own. The board methods use the code as written.
- SnakeModel.Snake.MakeMove and Board.BoardViewModel.MakeMove with a move require at least as many queues as segments. With fewer, the source indexes past the end of its queue array and traps.

## Findings

| source | as written | input that shows it | evidently intended | confidence | as-written member | corrected member |
|---|---|---|---|---|---|---|
| Snake/BoardView.swift:186-189 | `x` is drawn below the column count and `y` below the row count, but `(x, y)` is looked up as row `x`, column `y` | a board of 3 columns and 5 rows: square (3, 0) exists, but needs row 3 < 3 and is never drawn, so food never appears in rows 3 and 4 | look up row `y`, column `x`, so that every square can receive food | medium, not executed | Rules.DrawnCellAsWritten with Rules.AsWrittenMissesLowerRows and Rules.AsWrittenSpawnMissesLowerRows | Rules.DrawnCell with Rules.DrawsCoverBoard |
| Snake/BoardView.swift:55-61 | the four body squares of row 0 are coloured black, but their type stays `.empty` | a board of 2 rows and 6 columns whose first draw is (0, 1), looked up as row 0, column 1: the food lands on the body's third segment, and the first coasting tick empties that square, so no food is left and none was eaten; also, turning the head back onto square (0, 2) does not end the game | mark the body squares `.snake`, so that food placement and collisions see the body | medium, not executed | Board.BoardView.SquareStackFactoryAsWritten with Rules.AsWrittenFoodErased and Rules.AsWrittenBodyPassable | Board.BoardView.SquareStackFactory with Rules.MarkedBodyRepelsFood, Rules.InitialBodyMarked and Rules.MarkedBodyBlocks |
