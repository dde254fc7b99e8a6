/** The rules the live board applies (BoardView.swift), as functions on values: what a cell transition
    does to the squares, how food is placed, and what one timer tick does to the snake and the board. */
module Rules {
  import opened Wrappers
  import opened Geometry
  import opened Squares
  import K = Kinematics
  import Scoring

  /** What `moveSnake` and `spawnFood` read and write: the squares, the global score, the pending-growth
      flag, whether the tick timer still runs (a collision invalidates it: game over), the view's and
      its model's reward coordinate, and the random draws `(x, y)` that `spawnFood` has yet to use. */
  datatype BoardState = BoardState(
    cells: map<Coord, SquareType>,
    score: int,
    pendingFood: bool,
    timerRunning: bool,
    reward: Coord,
    modelReward: Coord,
    draws: seq<(int, int)>)

  /** The square a draw `(x, y)` is evidently meant to name, x drawn below the column count and y below
      the row count: row y, column x. */
  function DrawnCell(d: (int, int)): Coord {
    (d.1, d.0)
  }

  /** The square `spawnFood` looks up for a draw `(x, y)`: row x, column y. */
  function DrawnCellAsWritten(d: (int, int)): Coord {
    d
  }

  /** A draw as `Int.random` makes it for a board of `rows` by `cols` squares. */
  predicate InDrawRange(d: (int, int), rows: int, cols: int) {
    0 <= d.0 < cols && 0 <= d.1 < rows
  }

  /** As written, a board taller than it is wide never gets food below row `cols - 1`: no draw names
      the square (cols, 0), although that square exists. */
  lemma AsWrittenMissesLowerRows(rows: int, cols: int)
    requires 0 < cols < rows
    ensures forall d :: InDrawRange(d, rows, cols) ==> DrawnCellAsWritten(d) != (cols, 0)
  {
  }

  /** With the axes in order, every square of the board is named by some draw, and every draw names a
      square of the board, so no draw is wasted on a missing square. */
  lemma DrawsCoverBoard(rows: int, cols: int)
    ensures forall r, c :: 0 <= r < rows && 0 <= c < cols ==> InDrawRange((c, r), rows, cols) && DrawnCell((c, r)) == (r, c)
    ensures forall d :: InDrawRange(d, rows, cols) ==> 0 <= DrawnCell(d).0 < rows && 0 <= DrawnCell(d).1 < cols
  {
  }

  /** The index of the first draw that names an empty square, if any: `spawnFood` retries until then. */
  function FirstEmptyDraw(cells: map<Coord, SquareType>, draws: seq<(int, int)>): (r: Option<nat>)
    ensures r.Some? ==> r.value < |draws| && Lookup(cells, DrawnCellAsWritten(draws[r.value])) == Some(Empty)
    ensures forall j :: 0 <= j < (if r.Some? then r.value else |draws|) ==> Lookup(cells, DrawnCellAsWritten(draws[j])) != Some(Empty)
    decreases |draws|
  {
    if draws == [] then None
    else if Lookup(cells, DrawnCellAsWritten(draws[0])) == Some(Empty) then Some(0)
    else
      match FirstEmptyDraw(cells, draws[1..])
      case None => None
      case Some(k) => Some(k + 1)
  }

  /** `spawnFood`: the first draw naming an empty square turns that square into food and becomes both
      reward coordinates; the draws up to it are used up. With no such draw nothing is placed. */
  function SpawnFoodRule(s: BoardState): (r: BoardState)
    ensures r.cells.Keys == s.cells.Keys
    ensures r.score == s.score && r.pendingFood == s.pendingFood && r.timerRunning == s.timerRunning
  {
    match FirstEmptyDraw(s.cells, s.draws)
    case None => s.(draws := [])
    case Some(k) =>
      var c := DrawnCellAsWritten(s.draws[k]);
      s.(cells := s.cells[c := Food], reward := c, modelReward := c, draws := s.draws[k + 1..])
  }

  /** Food placement changes at most one square, an empty one, into food, and then that square is the
      reward of both view and model; when some draw names an empty square, a square does change. */
  lemma SpawnFoodPlaces(s: BoardState)
    ensures var r := SpawnFoodRule(s);
            && (r.cells == s.cells || exists c :: c in s.cells && s.cells[c] == Empty && r.cells == s.cells[c := Food] && r.reward == c && r.modelReward == c)
            && (r.cells == s.cells ==> r.reward == s.reward && r.modelReward == s.modelReward)
            && ((exists j :: 0 <= j < |s.draws| && Lookup(s.cells, DrawnCellAsWritten(s.draws[j])) == Some(Empty)) ==> r.cells != s.cells)
  {
    match FirstEmptyDraw(s.cells, s.draws)
    case None =>
    case Some(k) =>
      var c := DrawnCellAsWritten(s.draws[k]);
      assert s.cells[c := Food][c] != s.cells[c];
  }

  /** As written, when every draw is in `Int.random`'s range for a board of `rows` by `cols` squares,
      the square that receives food lies in the first `cols` rows and the first `rows` columns: on a
      board taller than it is wide the rows from `cols` on never get food. */
  lemma AsWrittenSpawnMissesLowerRows(s: BoardState, rows: int, cols: int)
    requires forall j :: 0 <= j < |s.draws| ==> InDrawRange(s.draws[j], rows, cols)
    ensures forall c :: c in s.cells && SpawnFoodRule(s).cells[c] != s.cells[c] ==> 0 <= c.0 < cols && 0 <= c.1 < rows
  {
    match FirstEmptyDraw(s.cells, s.draws)
    case None =>
    case Some(k) =>
      assert InDrawRange(s.draws[k], rows, cols);
  }

  /** `moveSnake(fromSquare:toSquare:)`. Either square missing, or a snake or obstacle square ahead:
      game over and no square changes. A food square ahead: one more point, growth pending, new food
      spawned, then the source square emptied and the destination made snake. An empty square ahead:
      just those two squares change. */
  function MoveSnakeRule(s: BoardState, from: Coord, to: Coord): (r: BoardState)
    ensures r.cells.Keys == s.cells.Keys
    ensures r.draws == s.draws || Lookup(s.cells, to) == Some(Food)
  {
    if from !in s.cells || to !in s.cells then
      s.(timerRunning := false)
    else if s.cells[to] == Food then
      var fed := SpawnFoodRule(s.(score := s.score + 1, pendingFood := true));
      fed.(cells := fed.cells[from := Empty][to := Snake])
    else if s.cells[to] != Empty then
      s.(timerRunning := false)
    else
      s.(cells := s.cells[from := Empty][to := Snake])
  }

  /** A transition with a square missing at either end ends the game and changes nothing else. */
  lemma MoveSnakeOffGrid(s: BoardState, from: Coord, to: Coord)
    requires from !in s.cells || to !in s.cells
    ensures MoveSnakeRule(s, from, to) == s.(timerRunning := false)
  {
  }

  /** A transition into a snake or obstacle square ends the game and changes nothing else. */
  lemma MoveSnakeBlocked(s: BoardState, from: Coord, to: Coord)
    requires from in s.cells && to in s.cells && s.cells[to] in {Snake, Obstacle}
    ensures MoveSnakeRule(s, from, to) == s.(timerRunning := false)
  {
  }

  /** A transition into an empty square changes exactly the two squares. */
  lemma MoveSnakeIntoEmpty(s: BoardState, from: Coord, to: Coord)
    requires from in s.cells && to in s.cells && s.cells[to] == Empty && from != to
    ensures var r := MoveSnakeRule(s, from, to);
            && r.cells[from] == Empty && r.cells[to] == Snake
            && (forall c :: c in s.cells && c != from && c != to ==> r.cells[c] == s.cells[c])
            && r.(cells := s.cells) == s
  {
  }

  /** A transition into food scores one point, sets growth pending, keeps the game going, empties the
      source and fills the destination with snake; apart from those two, at most one square changes,
      and only from empty to food, where the new reward is. */
  lemma MoveSnakeEats(s: BoardState, from: Coord, to: Coord)
    requires from in s.cells && to in s.cells && s.cells[to] == Food && from != to
    ensures var r := MoveSnakeRule(s, from, to);
            && r.score == s.score + 1 && r.pendingFood && r.timerRunning == s.timerRunning
            && r.cells[from] == Empty && r.cells[to] == Snake
            && forall c :: c in s.cells && c != from && c != to && r.cells[c] != s.cells[c] ==>
                 s.cells[c] == Empty && r.cells[c] == Food && c == r.modelReward
  {
  }

  /** Every food square is at the model's reward coordinate: at most one food square exists, and the AI
      knows where it is. */
  ghost predicate FoodAtReward(cells: map<Coord, SquareType>, reward: Coord) {
    forall c :: c in cells && cells[c] == Food ==> c == reward
  }

  /** Food placement keeps food only at the reward; so does a cell transition, in every branch. */
  lemma MoveSnakeKeepsFoodAtReward(s: BoardState, from: Coord, to: Coord)
    requires FoodAtReward(s.cells, s.modelReward)
    ensures FoodAtReward(MoveSnakeRule(s, from, to).cells, MoveSnakeRule(s, from, to).modelReward)
  {
    if from in s.cells && to in s.cells && s.cells[to] == Food {
      var fed := SpawnFoodRule(s.(score := s.score + 1, pendingFood := true));
      SpawnFoodPlaces(s.(score := s.score + 1, pendingFood := true));
      var r := MoveSnakeRule(s, from, to);
      assert r.cells == fed.cells[from := Empty][to := Snake];
      forall c | c in r.cells && r.cells[c] == Food
        ensures c == r.modelReward
      {
        assert c != from && c != to;
      }
    }
  }

  /** The board after the transitions `ts`, applied in order. */
  function ApplyAll(s: BoardState, ts: seq<(Coord, Coord)>): (r: BoardState)
    ensures r.cells.Keys == s.cells.Keys
    decreases |ts|
  {
    if ts == [] then s
    else
      var last := ts[|ts| - 1];
      MoveSnakeRule(ApplyAll(s, ts[..|ts| - 1]), last.0, last.1)
  }

  /** One more transition: the board after the first `i + 1` of `ts` is the board after the first
      `i` with transition `i` applied. */
  lemma ApplyAllStep(s: BoardState, ts: seq<(Coord, Coord)>, i: nat)
    requires i < |ts|
    ensures ApplyAll(s, ts[..i + 1]) == MoveSnakeRule(ApplyAll(s, ts[..i]), ts[i].0, ts[i].1)
  {
    assert ts[..i + 1][..i] == ts[..i];
  }

  /** Any sequence of transitions keeps food only at the reward. */
  lemma {:induction false} ApplyAllKeepsFoodAtReward(s: BoardState, ts: seq<(Coord, Coord)>)
    requires FoodAtReward(s.cells, s.modelReward)
    ensures FoodAtReward(ApplyAll(s, ts).cells, ApplyAll(s, ts).modelReward)
    decreases |ts|
  {
    if ts != [] {
      ApplyAllKeepsFoodAtReward(s, ts[..|ts| - 1]);
      MoveSnakeKeepsFoodAtReward(ApplyAll(s, ts[..|ts| - 1]), ts[|ts| - 1].0, ts[|ts| - 1].1);
    }
  }

  /** Once the timer is invalidated no transition restarts it; a transition stops it exactly when a
      square is missing or the destination is snake or obstacle. */
  lemma {:induction false} ApplyAllGameOver(s: BoardState, ts: seq<(Coord, Coord)>)
    ensures ApplyAll(s, ts).timerRunning ==>
              s.timerRunning && forall i :: 0 <= i < |ts| ==> ts[i].0 in s.cells && ts[i].1 in s.cells
    decreases |ts|
  {
    if ts != [] {
      ApplyAllGameOver(s, ts[..|ts| - 1]);
    }
  }

  /** The snake and the live board together. */
  datatype World = World(body: seq<Coord>, queues: seq<seq<Move>>, current: Move, board: BoardState)

  /** `BoardViewModel.makeMove` with the live board as its delegate: the body and queues move as the
      kinematics say, and the board applies each segment's transition, head first. */
  function AdvanceWorld(w: World, input: Option<Move>): (r: World)
    requires input.Some? ==> |w.body| <= |w.queues|
    ensures |r.body| == |w.body| && |r.queues| == |w.queues|
    ensures r.board.cells.Keys == w.board.cells.Keys
  {
    var moves := K.SegmentMoves(w.body, w.queues, w.current, input);
    World(K.Advance(w.body, moves), K.QueuesAfter(w.queues, input, |w.body|), K.CurrentAfter(w.current, input),
          ApplyAll(w.board, K.Transitions(w.body, moves)))
  }

  /** `addSnakePart` with the live board as its delegate: when there is a growth spot and a square
      exists there (of any type), the body and queues grow by it and that square becomes snake. */
  function Grow(w: World): (r: World)
    ensures r.board.cells.Keys == w.board.cells.Keys
    ensures r.current == w.current
  {
    match K.GrowthSpot(w.body, w.queues)
    case None => w
    case Some(spot) =>
      if spot.0 in w.board.cells then
        w.(body := w.body + [spot.0], queues := w.queues + [spot.1], board := w.board.(cells := w.board.cells[spot.0 := Snake]))
      else w
  }

  /** The start of a `makeMove` tick: pending growth realised and the flag cleared. */
  function Grown(w: World): (r: World)
    ensures r.board.cells.Keys == w.board.cells.Keys
    ensures !r.board.pendingFood
  {
    if w.board.pendingFood then var g := Grow(w); g.(board := g.board.(pendingFood := false)) else w
  }

  /** The move of a tick: the AI's choice, when the AI plays and finds one, or the user's input. */
  function Play(w: World, aiEnabled: bool, userMove: Option<Move>, inverseDistance: int -> real): (r: World)
    requires |w.body| <= |w.queues|
    ensures r.board.cells.Keys == w.board.cells.Keys
  {
    if aiEnabled then
      match Scoring.Choose(w.board.cells, w.board.modelReward, inverseDistance, w.body)
      case None => w
      case Some(m) => AdvanceWorld(w, Some(m))
    else
      AdvanceWorld(w, userMove)
  }

  /** One `makeMove` tick of the board: pending growth first (and the flag cleared), then exactly one
      move, the AI's choice on the grown board when the AI plays, or the user's input otherwise. */
  function Tick(w: World, aiEnabled: bool, userMove: Option<Move>, inverseDistance: int -> real): (r: World)
    requires |w.body| <= |w.queues|
    ensures r.board.cells.Keys == w.board.cells.Keys
  {
    Play(Grown(w), aiEnabled, userMove, inverseDistance)
  }

  /** The snake grows by one segment in a tick exactly when growth was pending, the growth spot exists
      and a square is there; otherwise its length is unchanged. */
  lemma TickGrowth(w: World, aiEnabled: bool, userMove: Option<Move>, inverseDistance: int -> real)
    requires |w.body| <= |w.queues|
    ensures var grows := w.board.pendingFood && K.GrowthSpot(w.body, w.queues).Some? && K.GrowthSpot(w.body, w.queues).value.0 in w.board.cells;
            |Tick(w, aiEnabled, userMove, inverseDistance).body| == |w.body| + (if grows then 1 else 0)
  {
  }

  /** Every tick keeps the kinematic formation: growth and both kinds of move preserve it. */
  lemma TickKeepsFormation(w: World, aiEnabled: bool, userMove: Option<Move>, inverseDistance: int -> real)
    requires K.Formation(w.body, w.queues)
    ensures var r := Tick(w, aiEnabled, userMove, inverseDistance); K.Formation(r.body, r.queues)
  {
    K.GrowthKeepsFormation(w.body, w.queues);
    var grown := Grown(w);
    assert K.Formation(grown.body, grown.queues);
    K.MakeMoveKeepsFormation(grown.body, grown.queues, grown.current, userMove);
    forall m ensures var a := AdvanceWorld(grown, Some(m)); K.Formation(a.body, a.queues) {
      K.MakeMoveKeepsFormation(grown.body, grown.queues, grown.current, Some(m));
    }
  }

  /** Every tick keeps food only at the model's reward coordinate. */
  lemma TickKeepsFoodAtReward(w: World, aiEnabled: bool, userMove: Option<Move>, inverseDistance: int -> real)
    requires |w.body| <= |w.queues|
    requires FoodAtReward(w.board.cells, w.board.modelReward)
    ensures var r := Tick(w, aiEnabled, userMove, inverseDistance); FoodAtReward(r.board.cells, r.board.modelReward)
  {
    var grown := Grown(w);
    assert FoodAtReward(grown.board.cells, grown.board.modelReward);
    assert |grown.body| <= |grown.queues|;
    forall input: Option<Move>
      ensures var a := AdvanceWorld(grown, input); FoodAtReward(a.board.cells, a.board.modelReward)
    {
      ApplyAllKeepsFoodAtReward(grown.board, K.Transitions(grown.body, K.SegmentMoves(grown.body, grown.queues, grown.current, input)));
    }
  }

  /** The body `squareStackFactory` lays out in row 0 of a board `width` squares wide: columns
      `min(width, 4) - 1` down to 0, head first (each cell is inserted in front of the previous). */
  function RowZeroBody(width: nat): (r: seq<Coord>)
    ensures |r| == if width < 4 then width else 4
    ensures forall i :: 0 <= i < |r| ==> r[i] == (0, |r| - 1 - i)
    ensures width >= 4 ==> r == K.InitialBody()
  {
    var n := if width < 4 then width else 4;
    seq(n, i requires 0 <= i < n => (0, n - 1 - i))
  }

  /** The square types of row `tag` as `squareStackFactory` builds it: every square empty, including
      the four it colours as the snake's body. */
  function RowCellsAsWritten(width: nat): (r: seq<SquareType>)
    ensures |r| == width && forall i :: 0 <= i < width ==> r[i] == Empty
  {
    seq(width, _ => Empty)
  }

  /** Row `tag` with the body's squares marked: snake at columns 0 to 3 of row 0, empty elsewhere. */
  function RowCells(width: nat, tag: int): (r: seq<SquareType>)
    ensures |r| == width
    ensures forall i :: 0 <= i < width ==> r[i] == if tag == 0 && i < 4 then Snake else Empty
  {
    seq(width, i => if tag == 0 && i < 4 then Snake else Empty)
  }

  /** One more column of `squareStackFactory`'s loop: the body gains the column in front while it is
      one of the first four. */
  lemma RowZeroBodyStep(i: nat)
    ensures RowZeroBody(i + 1) == if i < 4 then [(0, i)] + RowZeroBody(i) else RowZeroBody(i)
  {
  }

  /** Prepending to a concatenation prepends to its first part. */
  lemma PrependAssociates(c: Coord, a: seq<Coord>, b: seq<Coord>)
    ensures [c] + (a + b) == ([c] + a) + b
  {
  }

  /** One more column of `squareStackFactory`'s loop, square by square. */
  lemma RowCellsStep(i: nat, tag: int)
    ensures RowCells(i + 1, tag) == RowCells(i, tag) + [if tag == 0 && i < 4 then Snake else Empty]
    ensures RowCellsAsWritten(i + 1) == RowCellsAsWritten(i) + [Empty]
  {
  }

  /** The squares `createSquares` would build with the body's squares marked as snake, rows
      `0..<rows`. */
  function InitialCellsMarked(rows: nat, cols: nat): map<Coord, SquareType> {
    if rows == 0 then map[]
    else InitialCellsMarked(rows - 1, cols) + RowMap(rows - 1, RowCells(cols, rows - 1))
  }

  /** Square `c` of the marked board: present exactly within the board's rows and columns, snake on
      the four body squares of row 0 and empty elsewhere. */
  lemma {:induction false} InitialCellsMarkedAt(rows: nat, cols: nat, c: Coord)
    ensures c in InitialCellsMarked(rows, cols) <==> 0 <= c.0 < rows && 0 <= c.1 < cols
    ensures c in InitialCellsMarked(rows, cols) ==> InitialCellsMarked(rows, cols)[c] == if c.0 == 0 && c.1 < 4 then Snake else Empty
  {
    if rows > 0 {
      InitialCellsMarkedAt(rows - 1, cols, c);
      RowAddedAt(InitialCellsMarked(rows - 1, cols), rows, cols, c);
    }
  }

  /** Square `c` after row `rows - 1` is added to a board of `rows - 1` rows that has `c` as
      `InitialCellsMarkedAt` says. */
  lemma RowAddedAt(prev: map<Coord, SquareType>, rows: nat, cols: nat, c: Coord)
    requires rows > 0
    requires c in prev <==> 0 <= c.0 < rows - 1 && 0 <= c.1 < cols
    requires c in prev ==> prev[c] == if c.0 == 0 && c.1 < 4 then Snake else Empty
    ensures var m := prev + RowMap(rows - 1, RowCells(cols, rows - 1));
            && (c in m <==> 0 <= c.0 < rows && 0 <= c.1 < cols)
            && (c in m ==> m[c] == if c.0 == 0 && c.1 < 4 then Snake else Empty)
  {
    var row := RowCells(cols, rows - 1);
    var last := RowMap(rows - 1, row);
    RowMapAt(rows - 1, row, c);
    if c in last {
      assert (prev + last)[c] == row[c.1];
    } else if c in prev {
      assert (prev + last)[c] == prev[c];
    }
  }

  /** The marked board, square by square. */
  lemma InitialCellsMarkedShape(rows: nat, cols: nat)
    ensures Rectangle(InitialCellsMarked(rows, cols), rows, cols)
    ensures forall c :: c in InitialCellsMarked(rows, cols) ==> InitialCellsMarked(rows, cols)[c] == if c.0 == 0 && c.1 < 4 then Snake else Empty
  {
    forall c
      ensures c in InitialCellsMarked(rows, cols) <==> 0 <= c.0 < rows && 0 <= c.1 < cols
      ensures c in InitialCellsMarked(rows, cols) ==> InitialCellsMarked(rows, cols)[c] == if c.0 == 0 && c.1 < 4 then Snake else Empty
    {
      InitialCellsMarkedAt(rows, cols, c);
    }
  }

  /** The squares `createSquares` builds, rows `0..<rows`: every square empty, the body's included. */
  function InitialCellsAsWritten(rows: nat, cols: nat): (r: map<Coord, SquareType>)
    ensures Rectangle(r, rows, cols)
    ensures forall c :: c in r ==> r[c] == Empty
  {
    if rows == 0 then map[]
    else
      RowMapShape(rows - 1, RowCellsAsWritten(cols));
      RectangleGrows(InitialCellsAsWritten(rows - 1, cols), RowMap(rows - 1, RowCellsAsWritten(cols)), rows, cols);
      InitialCellsAsWritten(rows - 1, cols) + RowMap(rows - 1, RowCellsAsWritten(cols))
  }

  /** Food spawned on the board `createSquares` builds leaves its rows and columns as they are, and
      the one square it changes becomes the only food square, at the reward. */
  lemma SpawnFoodKeepsInitialShape(s: BoardState, rows: nat, cols: nat)
    requires s.cells == InitialCellsAsWritten(rows, cols)
    ensures Rectangle(SpawnFoodRule(s).cells, rows, cols)
    ensures FoodAtReward(SpawnFoodRule(s).cells, SpawnFoodRule(s).modelReward)
  {
    SpawnFoodPlaces(s);
    assert SpawnFoodRule(s).cells.Keys == s.cells.Keys;
  }

  /** Every segment of `body` sits on a snake square. */
  ghost predicate BodyMarked(cells: map<Coord, SquareType>, body: seq<Coord>) {
    forall i :: 0 <= i < |body| ==> body[i] in cells && cells[body[i]] == Snake
  }

  /** With the body marked, food placement never puts food under the snake and keeps the body marked:
      it changes only an empty square. */
  lemma MarkedBodyRepelsFood(s: BoardState, body: seq<Coord>)
    requires BodyMarked(s.cells, body)
    ensures BodyMarked(SpawnFoodRule(s).cells, body)
    ensures forall i :: 0 <= i < |body| ==> SpawnFoodRule(s).cells[body[i]] != Food
  {
    SpawnFoodPlaces(s);
  }

  /** A board of at least one row and four columns starts with the initial body marked. */
  lemma InitialBodyMarked(rows: nat, cols: nat)
    requires rows >= 1 && cols >= 4
    ensures BodyMarked(InitialCellsMarked(rows, cols), RowZeroBody(cols))
  {
    InitialCellsMarkedShape(rows, cols);
    var body := RowZeroBody(cols);
    forall i | 0 <= i < |body| ensures body[i] in InitialCellsMarked(rows, cols) && InitialCellsMarked(rows, cols)[body[i]] == Snake {
      assert body[i] == (0, 3 - i);
    }
  }

  /** Four transitions in order. */
  lemma ApplyFour(s: BoardState, t0: (Coord, Coord), t1: (Coord, Coord), t2: (Coord, Coord), t3: (Coord, Coord))
    ensures ApplyAll(s, [t0, t1, t2, t3])
         == MoveSnakeRule(MoveSnakeRule(MoveSnakeRule(MoveSnakeRule(s, t0.0, t0.1), t1.0, t1.1), t2.0, t2.1), t3.0, t3.1)
  {
    var ts := [t0, t1, t2, t3];
    assert ts[..3] == [t0, t1, t2] && [t0, t1, t2][..2] == [t0, t1] && [t0, t1][..1] == [t0] && [t0][..0] == [];
    assert ApplyAll(s, [t0]) == MoveSnakeRule(s, t0.0, t0.1);
    assert ApplyAll(s, [t0, t1]) == MoveSnakeRule(ApplyAll(s, [t0]), t1.0, t1.1);
    assert ApplyAll(s, [t0, t1, t2]) == MoveSnakeRule(ApplyAll(s, [t0, t1]), t2.0, t2.1);
  }

  /** A coasting tick of the initial body to the right: head first, each segment steps into the
      square ahead of it. */
  lemma InitialCoastRight(s: BoardState)
    ensures AdvanceWorld(World(K.InitialBody(), K.SeededQueues(), Right, s), None).board
         == ApplyAll(s, [((0, 3), (0, 4)), ((0, 2), (0, 3)), ((0, 1), (0, 2)), ((0, 0), (0, 1))])
  {
    assert K.Transitions(K.InitialBody(), K.SegmentMoves(K.InitialBody(), K.SeededQueues(), Right, None))
        == [((0, 3), (0, 4)), ((0, 2), (0, 3)), ((0, 1), (0, 2)), ((0, 0), (0, 1))];
  }

  /** A transition into an existing empty square rewrites just those two squares. */
  lemma MoveSnakeStep(s: BoardState, from: Coord, to: Coord)
    requires from in s.cells && to in s.cells && s.cells[to] == Empty
    ensures MoveSnakeRule(s, from, to) == s.(cells := s.cells[from := Empty][to := Snake])
  {
  }

  /** The four transitions of that tick on a row whose squares (0, 0) to (0, 4) exist, with (0, 4)
      empty: each moves into the square its predecessor has just left. */
  lemma InitialCoastCells(s: BoardState)
    requires forall j :: 0 <= j <= 4 ==> (0, j) in s.cells
    requires s.cells[(0, 4)] == Empty
    ensures MoveSnakeRule(MoveSnakeRule(MoveSnakeRule(MoveSnakeRule(s, (0, 3), (0, 4)), (0, 2), (0, 3)), (0, 1), (0, 2)), (0, 0), (0, 1))
         == s.(cells := s.cells[(0, 3) := Empty][(0, 4) := Snake][(0, 2) := Empty][(0, 3) := Snake][(0, 1) := Empty][(0, 2) := Snake][(0, 0) := Empty][(0, 1) := Snake])
  {
    assert (0, 0) in s.cells && (0, 1) in s.cells && (0, 2) in s.cells && (0, 3) in s.cells;
    var m1 := s.cells[(0, 3) := Empty][(0, 4) := Snake];
    MoveSnakeStep(s, (0, 3), (0, 4));
    var m2 := m1[(0, 2) := Empty][(0, 3) := Snake];
    MoveSnakeStep(s.(cells := m1), (0, 2), (0, 3));
    var m3 := m2[(0, 1) := Empty][(0, 2) := Snake];
    MoveSnakeStep(s.(cells := m2), (0, 1), (0, 2));
    MoveSnakeStep(s.(cells := m3), (0, 0), (0, 1));
  }

  /** So a coasting first tick, on a row whose squares (0, 0) to (0, 4) exist with (0, 4) empty,
      rewrites exactly the squares the four segments leave and enter. */
  lemma InitialCoastTick(s: BoardState)
    requires forall j :: 0 <= j <= 4 ==> (0, j) in s.cells
    requires s.cells[(0, 4)] == Empty
    ensures AdvanceWorld(World(K.InitialBody(), K.SeededQueues(), Right, s), None).board
         == s.(cells := s.cells[(0, 3) := Empty][(0, 4) := Snake][(0, 2) := Empty][(0, 3) := Snake][(0, 1) := Empty][(0, 2) := Snake][(0, 0) := Empty][(0, 1) := Snake])
  {
    InitialCoastRight(s);
    ApplyFour(s, ((0, 3), (0, 4)), ((0, 2), (0, 3)), ((0, 1), (0, 2)), ((0, 0), (0, 1)));
    InitialCoastCells(s);
  }

  /** On the board `createSquares` builds, of at least two rows and two columns, the draw (0, 1) is in
      range and, looked up as row 0, column 1, puts the food on that square. */
  lemma AsWrittenFirstFood(rows: nat, cols: nat)
    requires rows >= 2 && cols >= 2
    ensures InDrawRange((0, 1), rows, cols)
    ensures var s := BoardState(InitialCellsAsWritten(rows, cols), 0, false, true, (0, 0), (0, 0), [(0, 1)]);
            SpawnFoodRule(s) == s.(cells := s.cells[(0, 1) := Food], reward := (0, 1), modelReward := (0, 1), draws := [])
  {
    var m := InitialCellsAsWritten(rows, cols);
    assert OnBoard((0, 1), rows, cols);
    assert Lookup(m, DrawnCellAsWritten((0, 1))) == Some(Empty);
  }

  /** Food lying on the initial body's third segment, on a row of six squares that are otherwise
      empty, is gone after one coasting tick. */
  lemma FoodUnderBodyErased(s: BoardState)
    requires forall j :: 0 <= j < 6 ==> (0, j) in s.cells
    requires forall c :: c in s.cells && c != (0, 1) ==> s.cells[c] == Empty
    ensures var after := AdvanceWorld(World(K.InitialBody(), K.SeededQueues(), Right, s), None).board;
            && after.score == s.score && after.timerRunning == s.timerRunning
            && forall c :: c in after.cells ==> after.cells[c] != Food
  {
    InitialCoastTick(s);
    var m4 := s.cells[(0, 3) := Empty][(0, 4) := Snake][(0, 2) := Empty][(0, 3) := Snake][(0, 1) := Empty][(0, 2) := Snake][(0, 0) := Empty][(0, 1) := Snake];
    forall c | c in m4 ensures m4[c] != Food {
      if c !in {(0, 0), (0, 1), (0, 2), (0, 3), (0, 4)} {
        assert m4[c] == s.cells[c];
      }
    }
  }

  /** The board `createSquares` builds once the draw (0, 1) has placed food: the food is on (0, 1),
      the initial body's third segment, every other square is empty, and the first six squares of
      row 0 exist. */
  lemma AsWrittenFoodUnderBody(rows: nat, cols: nat)
    requires rows >= 2 && cols >= 6
    ensures var fed := SpawnFoodRule(BoardState(InitialCellsAsWritten(rows, cols), 0, false, true, (0, 0), (0, 0), [(0, 1)]));
            && Lookup(fed.cells, (0, 1)) == Some(Food) && (0, 1) == K.InitialBody()[2]
            && fed.score == 0 && fed.timerRunning
            && (forall j :: 0 <= j < 6 ==> (0, j) in fed.cells)
            && (forall c :: c in fed.cells && c != (0, 1) ==> fed.cells[c] == Empty)
  {
    var m := InitialCellsAsWritten(rows, cols);
    AsWrittenFirstFood(rows, cols);
    forall j | 0 <= j < 6 ensures (0, j) in m {
      assert OnBoard((0, j), rows, cols);
    }
  }

  /** As written, the first food can be placed under the unmarked body and the first tick erases it:
      on a board of at least two rows and six columns, the draw (0, 1) puts food on the body's third
      segment, and after one coasting tick no square holds food although none was eaten. */
  lemma AsWrittenFoodErased(rows: nat, cols: nat)
    requires rows >= 2 && cols >= 6
    ensures var fed := SpawnFoodRule(BoardState(InitialCellsAsWritten(rows, cols), 0, false, true, (0, 0), (0, 0), [(0, 1)]));
            && Lookup(fed.cells, (0, 1)) == Some(Food) && (0, 1) == K.InitialBody()[2]
            && var after := AdvanceWorld(World(K.InitialBody(), K.SeededQueues(), Right, fed), None).board;
               && after.score == 0 && after.timerRunning
               && forall c :: c in after.cells ==> after.cells[c] != Food
  {
    AsWrittenFoodUnderBody(rows, cols);
    FoodUnderBodyErased(SpawnFoodRule(BoardState(InitialCellsAsWritten(rows, cols), 0, false, true, (0, 0), (0, 0), [(0, 1)])));
  }

  /** As written, the snake can turn back into its own body without ending the game: on the board
      `createSquares` builds, of at least four columns, the head's step from (0, 3) onto the second
      segment's square (0, 2) keeps the timer running. */
  lemma AsWrittenBodyPassable(s: BoardState, rows: nat, cols: nat)
    requires rows >= 1 && cols >= 4 && s.cells == InitialCellsAsWritten(rows, cols)
    ensures (0, 2) == K.InitialBody()[1]
    ensures MoveSnakeRule(s, (0, 3), (0, 2)) == s.(cells := s.cells[(0, 3) := Empty][(0, 2) := Snake])
  {
    assert OnBoard((0, 3), rows, cols) && OnBoard((0, 2), rows, cols);
  }

  /** With the body's squares marked, that same step ends the game and changes nothing else. */
  lemma MarkedBodyBlocks(s: BoardState, rows: nat, cols: nat)
    requires rows >= 1 && cols >= 4 && s.cells == InitialCellsMarked(rows, cols)
    ensures MoveSnakeRule(s, (0, 3), (0, 2)) == s.(timerRunning := false)
  {
    InitialCellsMarkedAt(rows, cols, (0, 3));
    InitialCellsMarkedAt(rows, cols, (0, 2));
  }
}
