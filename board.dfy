/** The live game: the board's model (BoardViewModel.swift), the board view that owns the squares and
    applies the cell rules (BoardView.swift), and the AI that picks moves (AI.swift). One module because
    the three refer to each other: the model's delegate is the view, the view owns the AI, and the AI
    reads the model. Each method is proved against the value functions of `Kinematics`, `Rules` and
    `Scoring`. */
module Board {
  import opened Wrappers
  import opened Geometry
  import opened Squares
  import K = Kinematics
  import Scoring
  import Rules

  /** The side of one square, in points. */
  const SquareSize: nat := 20

  /** How many whole squares fit along a side of `points` points. */
  function SquaresAlong(points: nat): nat {
    points / SquareSize
  }

  /** `BoardViewModel`: the snake's body and queues, the reward coordinate the AI aims at, the frame
      size the view lays its squares out in, and the rows of square views it looks squares up in. */
  class BoardViewModel {
    var reward: Coord
    var wHPair: (nat, nat)
    var delegate: BoardView?
    var currentMove: Move
    var snake: seq<Coord>
    var snakeQueue: seq<seq<Move>>
    var verticalStackSubviews: Grid

    /** `init()`: no reward yet, a zero frame, no delegate, moving right, no segments, the seeded
        queues and no rows. */
    constructor ()
      ensures reward == (0, 0) && wHPair == (0, 0) && delegate == null && currentMove == Right
      ensures snake == [] && snakeQueue == K.SeededQueues()
      ensures fresh(verticalStackSubviews) && verticalStackSubviews.cells == map[]
    {
      reward := (0, 0);
      wHPair := (0, 0);
      delegate := null;
      currentMove := Right;
      snake := [];
      snakeQueue := K.SeededQueues();
      verticalStackSubviews := new Grid();
    }

    /** Whether the body and queues are in formation (see `Kinematics.Formation`). */
    ghost predicate Valid()
      reads this
    {
      K.Formation(snake, snakeQueue)
    }

    /** `restart()` of the model: moving right, no segments, the seeded queues. */
    method Restart()
      modifies this`currentMove, this`snake, this`snakeQueue
      ensures currentMove == Right && snake == [] && snakeQueue == K.SeededQueues()
    {
      currentMove := Right;
      snake := [];
      snakeQueue := K.SeededQueues();
    }

    /** `getSquare(coordinates:)` on the model's rows: the square's type, `nil` exactly when no row has
        tag `c.0` or that row has no square with tag `c.1`. */
    function GetSquare(c: Coord): (r: Option<SquareType>)
      reads this, verticalStackSubviews
      ensures r.None? <==> c !in verticalStackSubviews.cells
      ensures r.Some? ==> r.value == verticalStackSubviews.cells[c]
    {
      verticalStackSubviews.Get(c)
    }

    /** `move(square:move:)`: the neighbouring cell in direction `m`. The delegate, when there is
        one, applies the transition from the old cell to the new one; without a delegate nothing
        else changes. */
    method Move(square: Coord, m: Move) returns (r: Coord)
      requires delegate != null ==> delegate.model == this
      modifies this`reward, delegate, if delegate != null then {delegate.verticalStack} else {}
      ensures r == Step(square, m)
      ensures delegate != null ==>
                && delegate.State() == Rules.MoveSnakeRule(old(delegate.State()), square, r)
                && delegate.Layout() == old(delegate.Layout())
      ensures delegate == null ==> reward == old(reward)
    {
      r := Step(square, m);
      if delegate != null {
        delegate.MoveSnake(square, r);
      }
    }

    /** `makeMove(newMove:)`, proved against the kinematics: with `nil` every segment moves in
        `currentMove` and the queues stay; with a move, it is appended to every queue, each segment
        then takes and drops the first move of its queue, and the move becomes `currentMove`. The
        delegate applies one transition per segment, head first. A tick keeps the formation. */
    method MakeMove(newMove: Option<Move>)
      requires newMove.Some? ==> |snake| <= |snakeQueue|
      requires delegate != null ==> delegate.model == this
      modifies this`snake, this`snakeQueue, this`currentMove, this`reward, delegate
      modifies if delegate != null then {delegate.verticalStack} else {}
      ensures snake == old(K.Advance(snake, K.SegmentMoves(snake, snakeQueue, currentMove, newMove)))
      ensures snakeQueue == old(K.QueuesAfter(snakeQueue, newMove, |snake|))
      ensures currentMove == old(K.CurrentAfter(currentMove, newMove))
      ensures delegate != null ==>
                && delegate.World() == Rules.AdvanceWorld(old(delegate.World()), newMove)
                && delegate.Layout() == old(delegate.Layout())
      ensures delegate == null ==> reward == old(reward)
      ensures old(Valid()) ==> Valid()
    {
      if Valid() {
        K.MakeMoveKeepsFormation(snake, snakeQueue, currentMove, newMove);
      }
      if newMove.None? {
        StepSegments(K.CoastMoves(|snake|, currentMove));
        return;
      }
      var m := newMove.value;
      K.AppendThenDrop(snake, snakeQueue, m);
      AppendToQueues(m);
      PopSegments();
      currentMove := m;
    }

    /** The coasting loop of `makeMove`: segment i stepped by `moves[i]`, head to tail. */
    method StepSegments(moves: seq<Move>)
      requires |moves| == |snake|
      requires delegate != null ==> delegate.model == this
      modifies this`snake, this`reward, delegate, if delegate != null then {delegate.verticalStack} else {}
      ensures snake == K.Advance(old(snake), moves)
      ensures delegate != null ==>
                && delegate.State() == Rules.ApplyAll(old(delegate.State()), K.Transitions(old(snake), moves))
                && delegate.Layout() == old(delegate.Layout())
      ensures delegate == null ==> reward == old(reward)
    {
      ghost var body0 := snake;
      ghost var ts := K.Transitions(body0, moves);
      ghost var s0 := if delegate != null then delegate.State() else Rules.BoardState(map[], 0, false, false, (0, 0), (0, 0), []);
      ghost var layout0 := if delegate != null then delegate.Layout() else (verticalStackSubviews, 0, 0, []);
      var index := 0;
      while index < |snake|
        invariant 0 <= index <= |snake| == |body0|
        invariant forall j :: 0 <= j < |snake| ==> snake[j] == if j < index then Step(body0[j], moves[j]) else body0[j]
        invariant delegate != null ==> delegate.State() == Rules.ApplyAll(s0, ts[..index]) && delegate.Layout() == layout0
        invariant delegate == null ==> reward == old(reward)
      {
        assert ts[index] == (snake[index], Step(snake[index], moves[index]));
        var next := Move(snake[index], moves[index]);
        snake := snake[index := next];
        Rules.ApplyAllStep(s0, ts, index);
        index := index + 1;
      }
      assert ts[..index] == ts;
    }

    /** The first loop of `makeMove` with a move: `m` appended to every queue. */
    method AppendToQueues(m: Move)
      modifies this`snakeQueue
      ensures snakeQueue == K.Appended(old(snakeQueue), m)
    {
      ghost var q0 := snakeQueue;
      var index := 0;
      while index < |snakeQueue|
        invariant 0 <= index <= |snakeQueue| == |q0|
        invariant forall j :: 0 <= j < index ==> snakeQueue[j] == q0[j] + [m]
        invariant forall j :: index <= j < |snakeQueue| ==> snakeQueue[j] == q0[j]
      {
        snakeQueue := snakeQueue[index := snakeQueue[index] + [m]];
        index := index + 1;
      }
    }

    /** The second loop of `makeMove` with a move: head to tail, each segment steps by the first move
        of its queue and drops it. (The source's `if let` on that first move always succeeds here,
        since every queue has just been appended to.) */
    method PopSegments()
      requires |snake| <= |snakeQueue|
      requires forall j :: 0 <= j < |snake| ==> |snakeQueue[j]| > 0
      requires delegate != null ==> delegate.model == this
      modifies this`snake, this`snakeQueue, this`reward, delegate, if delegate != null then {delegate.verticalStack} else {}
      ensures snakeQueue == K.Dropped(old(snakeQueue), old(|snake|))
      ensures snake == K.Advance(old(snake), K.FirstMoves(old(snakeQueue), old(|snake|)))
      ensures delegate != null ==>
                && delegate.State() == Rules.ApplyAll(old(delegate.State()), K.Transitions(old(snake), K.FirstMoves(old(snakeQueue), old(|snake|))))
                && delegate.Layout() == old(delegate.Layout())
      ensures delegate == null ==> reward == old(reward)
    {
      ghost var body0, q0 := snake, snakeQueue;
      ghost var moves := K.FirstMoves(q0, |body0|);
      ghost var ts := K.Transitions(body0, moves);
      ghost var s0 := if delegate != null then delegate.State() else Rules.BoardState(map[], 0, false, false, (0, 0), (0, 0), []);
      ghost var layout0 := if delegate != null then delegate.Layout() else (verticalStackSubviews, 0, 0, []);
      var index := 0;
      while index < |snake|
        invariant 0 <= index <= |snake| == |body0|
        invariant |snakeQueue| == |q0|
        invariant forall j :: 0 <= j < |snake| ==> snake[j] == if j < index then Step(body0[j], moves[j]) else body0[j]
        invariant forall j :: 0 <= j < |snakeQueue| ==> snakeQueue[j] == if j < index then q0[j][1..] else q0[j]
        invariant delegate != null ==> delegate.State() == Rules.ApplyAll(s0, ts[..index]) && delegate.Layout() == layout0
        invariant delegate == null ==> reward == old(reward)
      {
        assert ts[index] == (snake[index], Step(snake[index], snakeQueue[index][0]));
        PopSegment(index);
        Rules.ApplyAllStep(s0, ts, index);
        index := index + 1;
      }
      assert ts[..index] == ts;
    }

    /** One pass of that loop: segment `index` steps by the first move of its queue, which it drops,
        and the delegate applies the step. */
    method PopSegment(index: nat)
      requires index < |snake| && index < |snakeQueue| && |snakeQueue[index]| > 0
      requires delegate != null ==> delegate.model == this
      modifies this`snake, this`snakeQueue, this`reward, delegate, if delegate != null then {delegate.verticalStack} else {}
      ensures snake == old(snake[index := Step(snake[index], snakeQueue[index][0])])
      ensures snakeQueue == old(snakeQueue[index := snakeQueue[index][1..]])
      ensures delegate != null ==>
                && delegate.State() == Rules.MoveSnakeRule(old(delegate.State()), old(snake[index]), snake[index])
                && delegate.Layout() == old(delegate.Layout())
      ensures delegate == null ==> reward == old(reward)
    {
      var nextMove := snakeQueue[index][0];
      var next := Move(snake[index], nextMove);
      snake := snake[index := next];
      snakeQueue := snakeQueue[index := snakeQueue[index][1..]];
    }

    /** `addSnakePart()`: when there is a growth spot and the delegate has a square there, of whatever
        type, the part and its queue are appended together and that square becomes snake (see
        `Rules.Grow`); without a delegate nothing changes. Growth keeps the formation. */
    method AddSnakePart()
      requires delegate != null ==> delegate.model == this
      modifies this`snake, this`snakeQueue, if delegate != null then {delegate.verticalStack} else {}
      ensures delegate != null ==> delegate.World() == Rules.Grow(old(delegate.World()))
      ensures delegate == null ==> snake == old(snake) && snakeQueue == old(snakeQueue)
      ensures old(Valid()) ==> Valid()
    {
      if Valid() {
        K.GrowthKeepsFormation(snake, snakeQueue);
      }
      if |snake| > 0 && |snakeQueue| > 0 && |snakeQueue[|snakeQueue| - 1]| > 0 {
        var lastPart := snake[|snake| - 1];
        var queue := snakeQueue[|snakeQueue| - 1];
        var move := queue[0];
        var newPartCoords := Behind(lastPart, move);
        if delegate != null && delegate.GetSquare(newPartCoords).Some? {
          snakeQueue := snakeQueue + [[move] + queue];
          snake := snake + [newPartCoords];
          delegate.verticalStack.Set(newPartCoords, SquareType.Snake);
        }
      }
    }

    /** `copy(with:)`: a new model with the same move, body, queues, reward, frame and rows, and no
        delegate, so moves made on the copy change no square and notify no view. The rows are the
        same views, so the copy sees every square the board changes. */
    method Copy() returns (c: BoardViewModel)
      ensures fresh(c)
      ensures c.currentMove == currentMove && c.snake == snake && c.snakeQueue == snakeQueue
      ensures c.reward == reward && c.wHPair == wHPair && c.verticalStackSubviews == verticalStackSubviews
      ensures c.delegate == null
    {
      c := new BoardViewModel();
      c.currentMove := currentMove;
      c.snake := snake;
      c.snakeQueue := snakeQueue;
      c.reward := reward;
      c.wHPair := wHPair;
      c.verticalStackSubviews := verticalStackSubviews;
    }
  }

  /** `BoardView`: the squares arranged in its vertical stack, the cell rules, the food and the tick.
      The process-wide `score` and `ai` are its fields here, the tick timer is the flag
      `timerRunning`, and the random draws `spawnFood` makes are the sequence `draws`. */
  class BoardView {
    var pendingFood: bool
    var reward: Coord
    var obstacles: seq<Coord>
    var horizontalSquares: nat
    var verticalSquares: nat
    var verticalStack: Grid
    const model: BoardViewModel
    const aiInstance: AI
    var score: int
    const aiEnabled: bool
    var timerRunning: bool
    var draws: seq<(int, int)>

    /** `init(frame:)` with `setupView()`: no squares yet, a fresh model whose delegate is this view,
        and an AI reading that model. */
    constructor (aiEnabled: bool, inverseDistance: int -> real, draws: seq<(int, int)>)
      ensures Wired() && fresh(model) && fresh(verticalStack) && verticalStack.cells == map[]
      ensures pendingFood == false && reward == (0, 0) && obstacles == [] && score == 0 && !timerRunning
      ensures horizontalSquares == 0 && verticalSquares == 0
      ensures this.aiEnabled == aiEnabled && this.draws == draws && aiInstance.inverseDistance == inverseDistance
      ensures model.snake == [] && model.snakeQueue == K.SeededQueues() && model.currentMove == Right
      ensures model.reward == (0, 0) && model.wHPair == (0, 0)
    {
      pendingFood := false;
      reward := (0, 0);
      obstacles := [];
      horizontalSquares := 0;
      verticalSquares := 0;
      verticalStack := new Grid();
      var m := new BoardViewModel();
      model := m;
      aiInstance := new AI(m, inverseDistance);
      score := 0;
      this.aiEnabled := aiEnabled;
      timerRunning := false;
      this.draws := draws;
      new;
      model.delegate := this;
    }

    /** The model reports to this view and the AI reads the same model. */
    ghost predicate Wired()
      reads this, model, aiInstance
    {
      model.delegate == this && aiInstance.model == model
    }

    /** Ready to tick: wired, the model looks squares up in this view's stack, the squares form the
        board's rectangle, and there is a queue for every segment. */
    ghost predicate Ready()
      reads this, model, aiInstance, verticalStack
    {
      && Wired()
      && model.verticalStackSubviews == verticalStack
      && Rectangle(verticalStack.cells, verticalSquares, horizontalSquares)
      && |model.snake| <= |model.snakeQueue|
    }

    /** What the cell rules read and write, as a value. */
    ghost function State(): Rules.BoardState
      reads this, verticalStack, model
    {
      Rules.BoardState(verticalStack.cells, score, pendingFood, timerRunning, reward, model.reward, draws)
    }

    /** The snake and the board, as a value. */
    ghost function World(): Rules.World
      reads this, verticalStack, model
    {
      Rules.World(model.snake, model.snakeQueue, model.currentMove, State())
    }

    /** What no cell rule and no move changes: the stack, the board's size and the obstacles. */
    ghost function Layout(): (Grid, int, int, seq<Coord>)
      reads this
    {
      (verticalStack, verticalSquares, horizontalSquares, obstacles)
    }

    /** `getSquare(coordinates:)`: the square's type, and on a built board `nil` exactly for the
        coordinates outside its rows and columns. */
    function GetSquare(c: Coord): (r: Option<SquareType>)
      reads this, verticalStack
      ensures r.Some? ==> c in verticalStack.cells && r.value == verticalStack.cells[c]
      ensures Rectangle(verticalStack.cells, verticalSquares, horizontalSquares) ==>
                (r.None? <==> !OnBoard(c, verticalSquares, horizontalSquares))
    {
      verticalStack.Get(c)
    }

    /** `moveSnake(fromSquare:toSquare:)`, proved against `Rules.MoveSnakeRule`: game over when either
        square is missing or the destination is snake or obstacle; on food a point, pending growth and
        new food first; then the source emptied and the destination made snake. */
    method MoveSnake(from: Coord, to: Coord)
      modifies this`score, this`pendingFood, this`timerRunning, this`reward, this`draws, verticalStack, model`reward
      ensures State() == Rules.MoveSnakeRule(old(State()), from, to)
    {
      var fromSquare := GetSquare(from);
      var toSquare := GetSquare(to);
      if fromSquare.Some? && toSquare.Some? {
        if toSquare.value == Food {
          score := score + 1;
          pendingFood := true;
          SpawnFood();
        } else if toSquare.value != Empty {
          timerRunning := false;
          return;
        }
        verticalStack.Set(from, Empty);
        verticalStack.Set(to, SquareType.Snake);
      } else {
        timerRunning := false;
        return;
      }
    }

    /** `spawnFood()`, proved against `Rules.SpawnFoodRule`: draws `(x, y)` are looked up as row x,
        column y and tried in order until one names an empty square, which becomes food and the reward
        of both view and model. With the draws used up and none empty, nothing is placed. */
    method SpawnFood()
      modifies this`reward, this`draws, verticalStack, model`reward
      ensures State() == Rules.SpawnFoodRule(old(State()))
    {
      var i := 0;
      while i < |draws| && GetSquare(Rules.DrawnCellAsWritten(draws[i])) != Some(Empty)
        invariant 0 <= i <= |draws|
        invariant forall j :: 0 <= j < i ==> Lookup(verticalStack.cells, Rules.DrawnCellAsWritten(draws[j])) != Some(Empty)
      {
        i := i + 1;
      }
      if i < |draws| {
        var square := Rules.DrawnCellAsWritten(draws[i]);
        verticalStack.Set(square, Food);
        reward := square;
        model.reward := square;
        draws := draws[i + 1..];
      } else {
        draws := [];
      }
    }

    /** `squareStackFactory(width:tag:)` as written: every square of the row is empty, and row 0 puts
        the first four columns into the body, head first. */
    method SquareStackFactoryAsWritten(width: nat, tag: int) returns (row: seq<SquareType>)
      modifies model`snake
      ensures row == Rules.RowCellsAsWritten(width)
      ensures tag == 0 ==> model.snake == Rules.RowZeroBody(width) + old(model.snake)
      ensures tag != 0 ==> model.snake == old(model.snake)
    {
      ghost var body0 := model.snake;
      row := [];
      var i := 0;
      while i < width
        invariant 0 <= i <= width && row == Rules.RowCellsAsWritten(i)
        invariant tag == 0 ==> model.snake == Rules.RowZeroBody(i) + body0
        invariant tag != 0 ==> model.snake == body0
      {
        Rules.RowZeroBodyStep(i);
        Rules.RowCellsStep(i, tag);
        if tag == 0 && (i == 0 || i == 1 || i == 2 || i == 3) {
          AddToBody((tag, i));
          Rules.PrependAssociates((tag, i), Rules.RowZeroBody(i), body0);
        }
        row := row + [Empty];
        i := i + 1;
      }
    }

    /** `squareStackFactory(width:tag:)` with the body's squares marked as snake, as their colouring
        intends. */
    method SquareStackFactory(width: nat, tag: int) returns (row: seq<SquareType>)
      modifies model`snake
      ensures row == Rules.RowCells(width, tag)
      ensures tag == 0 ==> model.snake == Rules.RowZeroBody(width) + old(model.snake)
      ensures tag != 0 ==> model.snake == old(model.snake)
    {
      ghost var body0 := model.snake;
      row := [];
      var i := 0;
      while i < width
        invariant 0 <= i <= width && row == Rules.RowCells(i, tag)
        invariant tag == 0 ==> model.snake == Rules.RowZeroBody(i) + body0
        invariant tag != 0 ==> model.snake == body0
      {
        Rules.RowZeroBodyStep(i);
        Rules.RowCellsStep(i, tag);
        if tag == 0 && (i == 0 || i == 1 || i == 2 || i == 3) {
          AddToBody((tag, i));
          Rules.PrependAssociates((tag, i), Rules.RowZeroBody(i), body0);
          row := row + [SquareType.Snake];
        } else {
          row := row + [Empty];
        }
        i := i + 1;
      }
    }

    /** The body update of `squareStackFactory`: inserted in front, or appended to an empty body. */
    method AddToBody(c: Coord)
      modifies model`snake
      ensures model.snake == [c] + old(model.snake)
    {
      if |model.snake| > 0 {
        model.snake := [c] + model.snake;
      } else {
        model.snake := model.snake + [c];
      }
    }

    /** `createSquares()`: the board's size from the model's frame, one row per 20 points of height,
        each of one square per 20 points of width; the model's rows become the stack's; the timer
        starts and food is spawned. The stack must be empty, as it is on first appearance and after
        `restart`. */
    method CreateSquares()
      requires verticalStack.cells == map[]
      requires Wired()
      modifies this`horizontalSquares, this`verticalSquares, this`timerRunning, this`reward, this`draws
      modifies verticalStack, model`snake, model`verticalStackSubviews, model`reward
      ensures horizontalSquares == SquaresAlong(model.wHPair.0) && verticalSquares == SquaresAlong(model.wHPair.1)
      ensures model.verticalStackSubviews == verticalStack && Wired()
      ensures model.snake == (if verticalSquares > 0 then Rules.RowZeroBody(horizontalSquares) else []) + old(model.snake)
      ensures State() == Rules.SpawnFoodRule(old(State()).(cells := Rules.InitialCellsAsWritten(verticalSquares, horizontalSquares), timerRunning := true))
    {
      ghost var s0 := State();
      BuildSquares();
      timerRunning := true;
      assert State() == s0.(cells := Rules.InitialCellsAsWritten(verticalSquares, horizontalSquares), timerRunning := true);
      SpawnFood();
    }

    /** The part of `createSquares` before the timer and the food: the board's size and its squares. */
    method BuildSquares()
      requires verticalStack.cells == map[]
      modifies this`horizontalSquares, this`verticalSquares, verticalStack, model`snake, model`verticalStackSubviews
      ensures horizontalSquares == SquaresAlong(model.wHPair.0) && verticalSquares == SquaresAlong(model.wHPair.1)
      ensures model.verticalStackSubviews == verticalStack
      ensures verticalStack.cells == Rules.InitialCellsAsWritten(verticalSquares, horizontalSquares)
      ensures model.snake == (if verticalSquares > 0 then Rules.RowZeroBody(horizontalSquares) else []) + old(model.snake)
    {
      horizontalSquares := SquaresAlong(model.wHPair.0);
      verticalSquares := SquaresAlong(model.wHPair.1);
      AddRows(verticalSquares, horizontalSquares);
      model.verticalStackSubviews := verticalStack;
    }

    /** The loop of `createSquares`: rows `0..<rows` of `cols` squares each added to the empty stack. */
    method AddRows(rows: nat, cols: nat)
      requires verticalStack.cells == map[]
      modifies verticalStack, model`snake
      ensures verticalStack.cells == Rules.InitialCellsAsWritten(rows, cols)
      ensures rows > 0 ==> model.snake == Rules.RowZeroBody(cols) + old(model.snake)
      ensures rows == 0 ==> model.snake == old(model.snake)
    {
      ghost var body0 := model.snake;
      var row := 0;
      while row < rows
        invariant 0 <= row <= rows
        invariant verticalStack.cells == Rules.InitialCellsAsWritten(row, cols)
        invariant row > 0 ==> model.snake == Rules.RowZeroBody(cols) + body0
        invariant row == 0 ==> model.snake == body0
      {
        var squares := SquareStackFactoryAsWritten(cols, row);
        verticalStack.AddRow(row, squares);
        row := row + 1;
      }
    }

    /** `restart()`: the timer stopped, the score zeroed, the model restarted, every square removed,
        reward and obstacles cleared, and the squares built again. `pendingFood` is left as it was. */
    method Restart()
      requires Wired()
      modifies this`timerRunning, this`score, this`verticalStack, this`reward, this`obstacles
      modifies this`horizontalSquares, this`verticalSquares, this`draws
      modifies model`currentMove, model`snake, model`snakeQueue, model`verticalStackSubviews, model`reward
      ensures fresh(verticalStack) && obstacles == [] && Ready()
      ensures model.snakeQueue == K.SeededQueues() && model.currentMove == Right
      ensures horizontalSquares == SquaresAlong(model.wHPair.0) && verticalSquares == SquaresAlong(model.wHPair.1)
      ensures model.snake == (if verticalSquares > 0 then Rules.RowZeroBody(horizontalSquares) else [])
      ensures State() == Rules.SpawnFoodRule(Rules.BoardState(Rules.InitialCellsAsWritten(verticalSquares, horizontalSquares), 0,
                                                              old(pendingFood), true, (0, 0), old(model.reward), old(draws)))
      ensures Rules.FoodAtReward(verticalStack.cells, model.reward)
    {
      Clear();
      CreateSquares();
      ghost var built := Rules.BoardState(Rules.InitialCellsAsWritten(verticalSquares, horizontalSquares), 0,
                                          old(pendingFood), true, (0, 0), old(model.reward), old(draws));
      Rules.SpawnFoodKeepsInitialShape(built, verticalSquares, horizontalSquares);
      assert verticalStack.cells == Rules.SpawnFoodRule(built).cells;
      assert |model.snake| <= 4 == |model.snakeQueue|;
    }

    /** The part of `restart` before the squares are built again. */
    method Clear()
      requires Wired()
      modifies this`timerRunning, this`score, this`verticalStack, this`reward, this`obstacles
      modifies model`currentMove, model`snake, model`snakeQueue
      ensures fresh(verticalStack) && verticalStack.cells == map[] && obstacles == [] && Wired()
      ensures model.snakeQueue == K.SeededQueues() && model.currentMove == Right && model.snake == []
      ensures State() == Rules.BoardState(map[], 0, old(pendingFood), false, (0, 0), old(model.reward), old(draws))
    {
      timerRunning := false;
      score := 0;
      model.Restart();
      verticalStack := new Grid();
      reward := (0, 0);
      obstacles := [];
    }

    /** `makeMove()`, one tick, proved against `Rules.Tick`: pending growth is realised and the flag
        cleared first; then exactly one move, the AI's choice on the grown board when the AI plays, or
        the user's `userMove` otherwise. */
    method MakeMove(userMove: Option<Move>)
      requires Ready()
      modifies this, verticalStack, model`snake, model`snakeQueue, model`currentMove, model`reward
      ensures World() == Rules.Tick(old(World()), aiEnabled, userMove, aiInstance.inverseDistance)
      ensures Layout() == old(Layout()) && Ready()
    {
      GrowIfPending();
      Play(userMove);
    }

    /** The first step of `makeMove`: the pending part added and the flag cleared. */
    method GrowIfPending()
      requires Ready()
      modifies this`pendingFood, verticalStack, model`snake, model`snakeQueue
      ensures World() == Rules.Grown(old(World()))
      ensures Ready()
    {
      if pendingFood {
        model.AddSnakePart();
        pendingFood := false;
      }
    }

    /** The move of `makeMove`. The source passes the AI's move to a completion run later on the main
        queue; here it is applied at once. */
    method Play(userMove: Option<Move>)
      requires Ready()
      modifies this, verticalStack, model`snake, model`snakeQueue, model`currentMove, model`reward
      ensures World() == Rules.Play(old(World()), aiEnabled, userMove, aiInstance.inverseDistance)
      ensures Layout() == old(Layout()) && Ready()
    {
      if aiEnabled {
        var move := aiInstance.GetMove();
        if move.Some? {
          Advance(move);
        }
      } else {
        Advance(userMove);
      }
    }

    /** `model.makeMove(newMove:)` called from the board: the model's body and queues move, and this
        view applies each segment's transition. */
    method Advance(input: Option<Move>)
      requires Ready()
      modifies this, verticalStack, model`snake, model`snakeQueue, model`currentMove, model`reward
      ensures World() == Rules.AdvanceWorld(old(World()), input)
      ensures Layout() == old(Layout()) && Ready()
    {
      model.MakeMove(input);
    }
  }

  /** `AI`: the model it reads, and the empty-square score term `5 / distance` as a function of the
      squared distance to the reward. */
  class AI {
    var model: BoardViewModel?
    const inverseDistance: int -> real

    constructor (model: BoardViewModel?, inverseDistance: int -> real)
      ensures this.model == model && this.inverseDistance == inverseDistance
    {
      this.model := model;
      this.inverseDistance := inverseDistance;
    }

    /** `checkDirection(square:move:)`: the move with the score of the square it leads to, read through
        a fresh copy of the model on which the move is made; the copy has no delegate, so the score is
        that of the live squares and reward. */
    method CheckDirection(square: Coord, m: Move) returns (result: (Move, real))
      requires model != null && |model.snake| <= |model.snakeQueue|
      ensures result == (m, Scoring.CheckSquare(model.verticalStackSubviews.cells, model.reward, inverseDistance, Step(square, m)))
    {
      var newSquare := Step(square, m);
      var copy := model.Copy();
      copy.MakeMove(Some(m));
      result := (m, Scoring.CheckSquare(copy.verticalStackSubviews.cells, copy.reward, inverseDistance, newSquare));
    }

    /** `Move.allCases.map { checkDirection(square: head, move: $0) }`. */
    method ScoreCandidates(head: Coord, ghost cells: map<Coord, SquareType>, ghost goal: Coord) returns (moves: seq<(Move, real)>)
      requires model != null && |model.snake| <= |model.snakeQueue|
      requires model.verticalStackSubviews.cells == cells && model.reward == goal
      ensures moves == Scoring.Candidates(cells, goal, inverseDistance, head)
    {
      moves := [];
      var i := 0;
      while i < |AllCases|
        invariant 0 <= i <= |AllCases|
        invariant moves == Scoring.Candidates(cells, goal, inverseDistance, head)[..i]
      {
        var candidate := CheckDirection(head, AllCases[i]);
        moves := moves + [candidate];
        i := i + 1;
      }
    }

    /** `getRewardForMove(head:iterations:reward:model:)`, proved against `Scoring.Rollout`: the
        simulation model `sim` is moved along but never read, so the result is the rollout over the
        live squares and reward. The source's branch for an empty candidate list is dead, as the list
        always has four entries. */
    method GetRewardForMove(head: Coord, iterations: nat, reward: real, sim: BoardViewModel,
                            ghost cells: map<Coord, SquareType>, ghost goal: Coord) returns (r: real)
      requires model != null && |model.snake| <= |model.snakeQueue|
      requires model.verticalStackSubviews.cells == cells && model.reward == goal
      requires iterations <= Scoring.DepthCap
      requires sim != model && sim.delegate == null && |sim.snake| <= |sim.snakeQueue|
      modifies sim`snake, sim`snakeQueue, sim`currentMove, sim`reward
      ensures r == Scoring.Rollout(cells, goal, inverseDistance, head, iterations, reward)
      decreases Scoring.DepthCap - iterations
    {
      if iterations == Scoring.DepthCap {
        return reward;
      }
      var moves := ScoreCandidates(head, cells, goal);
      var best := Scoring.Best(moves);
      var move, moveReward := best.0, best.1;
      if moveReward < 0.0 || moveReward > Scoring.FoodScore {
        return reward + moveReward;
      }
      Simulate(sim, move);
      r := GetRewardForMove(Step(head, move), iterations + 1, reward + moveReward, sim, cells, goal);
    }

    /** `model.makeMove(newMove:)` on a simulation model without a delegate: only its snake, queues and
        current move change, and the body stays no longer than its queues. */
    static method Simulate(sim: BoardViewModel, m: Move)
      requires sim.delegate == null && |sim.snake| <= |sim.snakeQueue|
      modifies sim`snake, sim`snakeQueue, sim`currentMove, sim`reward
      ensures sim.delegate == null && |sim.snake| <= |sim.snakeQueue|
    {
      sim.MakeMove(Some(m));
    }

    /** One entry of `moveRewardArr`: the score of the square `m` leads to plus the rollout from there,
        on a fresh copy of the model. */
    method ScoreMove(head: Coord, m: Move) returns (total: real)
      requires model != null && |model.snake| <= |model.snakeQueue|
      ensures total == Scoring.Total(model.verticalStackSubviews.cells, model.reward, inverseDistance, head, m)
    {
      var first := CheckDirection(head, m);
      var sim := model.Copy();
      total := GetRewardForMove(Step(head, m), 0, first.1, sim, model.verticalStackSubviews.cells, model.reward);
    }

    /** `getMove(completion:)`, proved against `Scoring.Choose`: no move when the model or its head is
        missing; otherwise every move of `Move.allCases` is scored once, its first square plus the
        rollout from there, and the first best-scoring move is chosen. The source's `.right` fallback
        for an empty list is dead. */
    method GetMove() returns (chosen: Option<Move>)
      requires model != null ==> |model.snake| <= |model.snakeQueue|
      ensures model == null ==> chosen.None?
      ensures model != null ==> chosen == Scoring.Choose(model.verticalStackSubviews.cells, model.reward, inverseDistance, model.snake)
    {
      if model == null || |model.snake| == 0 {
        return None;
      }
      var moveRewardArr := ScoreAll(model.snake[0]);
      chosen := Some(Scoring.Best(moveRewardArr).0);
    }

    /** The loop of `getMove`: `moveRewardArr`, every move of `Move.allCases` with its total. */
    method ScoreAll(head: Coord) returns (moveRewardArr: seq<(Move, real)>)
      requires model != null && |model.snake| <= |model.snakeQueue|
      ensures moveRewardArr == Scoring.Totals(model.verticalStackSubviews.cells, model.reward, inverseDistance, head)
    {
      ghost var cells, goal := model.verticalStackSubviews.cells, model.reward;
      var moves := AllCases;
      moveRewardArr := [];
      var i := 0;
      while i < |moves|
        invariant 0 <= i <= |moves|
        invariant moveRewardArr == Scoring.Totals(cells, goal, inverseDistance, head)[..i]
      {
        var total := ScoreMove(head, moves[i]);
        moveRewardArr := moveRewardArr + [(moves[i], total)];
        i := i + 1;
      }
    }
  }
}
