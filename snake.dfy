/** The standalone `Snake` class (Snake.swift): the same kinematics as the board's model, over its own
    fields, reporting to an optional `SnakeDelegate`. Every method is proved against the functions of
    `Kinematics`, so the formation lemmas there apply to it. */
module SnakeModel {
  import opened Wrappers
  import opened Geometry
  import opened Squares
  import K = Kinematics

  /** A `SnakeDelegate`: `moveSnake` calls are recorded in order as (from, to) pairs, and `getSquare`
      looks up the squares it holds. */
  class SnakeDelegate {
    var notifications: seq<(Coord, Coord)>
    const squares: Grid

    constructor (squares: Grid)
      ensures notifications == [] && this.squares == squares
    {
      notifications := [];
      this.squares := squares;
    }

    /** `moveSnake(fromSquare:toSquare:)`: one more notification. */
    method MoveSnake(from: Coord, to: Coord)
      modifies this
      ensures notifications == old(notifications) + [(from, to)]
    {
      notifications := notifications + [(from, to)];
    }
  }

  class Snake {
    var currentMove: Move
    var snakeComponents: seq<Coord>
    var moveQueue: seq<seq<Move>>
    var delegate: SnakeDelegate?

    /** `init()`: moving right, no segments, the seeded queues, no delegate. */
    constructor ()
      ensures currentMove == Right && snakeComponents == [] && moveQueue == K.SeededQueues()
      ensures delegate == null
    {
      currentMove := Right;
      snakeComponents := [];
      moveQueue := K.SeededQueues();
      delegate := null;
    }

    /** The convenience initialiser: the given state, no delegate. */
    constructor WithState(currentMove: Move, snakeComponents: seq<Coord>, moveQueue: seq<seq<Move>>)
      ensures this.currentMove == currentMove && this.snakeComponents == snakeComponents
      ensures this.moveQueue == moveQueue && delegate == null
    {
      this.currentMove := currentMove;
      this.snakeComponents := snakeComponents;
      this.moveQueue := moveQueue;
      delegate := null;
    }

    /** Whether the body and queues are in formation (see `Kinematics.Formation`). */
    ghost predicate Valid()
      reads this
    {
      K.Formation(snakeComponents, moveQueue)
    }

    /** `move(square:move:)`: the neighbouring cell in direction `m`, reported to the delegate once. */
    method Move(square: Coord, m: Move) returns (r: Coord)
      modifies delegate
      ensures r == Step(square, m)
      ensures delegate != null ==> delegate.notifications == old(delegate.notifications) + [(square, r)]
    {
      r := Step(square, m);
      if delegate != null {
        delegate.MoveSnake(square, r);
      }
    }

    /** `makeMove(newMove:)`. With `nil` every segment moves in `currentMove` and the queues stay as
        they are. With a move, it is appended to every queue, then each segment takes the first move of
        its queue and drops it, and the move becomes `currentMove`. The delegate hears one (from, to)
        notification per segment, head first. A tick keeps the formation. */
    method MakeMove(newMove: Option<Move>)
      requires newMove.Some? ==> |snakeComponents| <= |moveQueue|
      modifies this`snakeComponents, this`moveQueue, this`currentMove, delegate
      ensures snakeComponents == old(K.Advance(snakeComponents, K.SegmentMoves(snakeComponents, moveQueue, currentMove, newMove)))
      ensures moveQueue == old(K.QueuesAfter(moveQueue, newMove, |snakeComponents|))
      ensures currentMove == old(K.CurrentAfter(currentMove, newMove))
      ensures delegate != null ==>
                delegate.notifications == old(delegate.notifications + K.Transitions(snakeComponents, K.SegmentMoves(snakeComponents, moveQueue, currentMove, newMove)))
      ensures old(Valid()) ==> Valid()
    {
      if Valid() {
        K.MakeMoveKeepsFormation(snakeComponents, moveQueue, currentMove, newMove);
      }
      if newMove.None? {
        StepSegments(K.CoastMoves(|snakeComponents|, currentMove));
        return;
      }
      var m := newMove.value;
      K.AppendThenDrop(snakeComponents, moveQueue, m);
      AppendToQueues(m);
      PopSegments();
      currentMove := m;
    }

    /** Segment i stepped by `moves[i]`, head to tail, each step reported to the delegate: the
        coasting loop of `makeMove`. */
    method StepSegments(moves: seq<Move>)
      requires |moves| == |snakeComponents|
      modifies this`snakeComponents, delegate
      ensures snakeComponents == K.Advance(old(snakeComponents), moves)
      ensures delegate != null ==> delegate.notifications == old(delegate.notifications) + K.Transitions(old(snakeComponents), moves)
    {
      ghost var body0 := snakeComponents;
      ghost var heard := if delegate != null then delegate.notifications else [];
      var index := 0;
      while index < |snakeComponents|
        invariant 0 <= index <= |snakeComponents| == |body0|
        invariant forall j :: 0 <= j < index ==> snakeComponents[j] == Step(body0[j], moves[j])
        invariant forall j :: index <= j < |snakeComponents| ==> snakeComponents[j] == body0[j]
        invariant delegate != null ==> delegate.notifications == heard + K.Transitions(body0, moves)[..index]
      {
        var next := Move(snakeComponents[index], moves[index]);
        snakeComponents := snakeComponents[index := next];
        index := index + 1;
        assert K.Transitions(body0, moves)[..index] == K.Transitions(body0, moves)[..index - 1] + [(body0[index - 1], next)];
      }
    }

    /** The first loop of `makeMove` with a move: `m` appended to every queue. */
    method AppendToQueues(m: Move)
      modifies this`moveQueue
      ensures moveQueue == K.Appended(old(moveQueue), m)
    {
      ghost var q0 := moveQueue;
      var index := 0;
      while index < |moveQueue|
        invariant 0 <= index <= |moveQueue| == |q0|
        invariant forall j :: 0 <= j < index ==> moveQueue[j] == q0[j] + [m]
        invariant forall j :: index <= j < |moveQueue| ==> moveQueue[j] == q0[j]
      {
        moveQueue := moveQueue[index := moveQueue[index] + [m]];
        index := index + 1;
      }
    }

    /** The second loop of `makeMove` with a move: head to tail, each segment steps by the first move
        of its queue, drops that move and reports the step to the delegate. */
    method PopSegments()
      requires |snakeComponents| <= |moveQueue|
      requires forall j :: 0 <= j < |snakeComponents| ==> |moveQueue[j]| > 0
      modifies this`snakeComponents, this`moveQueue, delegate
      ensures moveQueue == K.Dropped(old(moveQueue), old(|snakeComponents|))
      ensures snakeComponents == K.Advance(old(snakeComponents), K.FirstMoves(old(moveQueue), old(|snakeComponents|)))
      ensures delegate != null ==>
                delegate.notifications == old(delegate.notifications) + K.Transitions(old(snakeComponents), K.FirstMoves(old(moveQueue), old(|snakeComponents|)))
    {
      ghost var body0, q0 := snakeComponents, moveQueue;
      ghost var moves := K.FirstMoves(q0, |body0|);
      ghost var heard := if delegate != null then delegate.notifications else [];
      var index := 0;
      while index < |snakeComponents|
        invariant 0 <= index <= |snakeComponents| == |body0|
        invariant |moveQueue| == |q0|
        invariant forall j :: 0 <= j < |snakeComponents| ==> snakeComponents[j] == if j < index then Step(body0[j], moves[j]) else body0[j]
        invariant forall j :: 0 <= j < |moveQueue| ==> moveQueue[j] == if j < index then q0[j][1..] else q0[j]
        invariant delegate != null ==> delegate.notifications == heard + K.Transitions(body0, moves)[..index]
      {
        PopSegment(index);
        index := index + 1;
        assert K.Transitions(body0, moves)[..index] == K.Transitions(body0, moves)[..index - 1] + [K.Transitions(body0, moves)[index - 1]];
      }
    }

    /** One pass of that loop: segment `index` steps by the first move of its queue, which it drops,
        and the step is reported to the delegate. */
    method PopSegment(index: nat)
      requires index < |snakeComponents| && index < |moveQueue| && |moveQueue[index]| > 0
      modifies this`snakeComponents, this`moveQueue, delegate
      ensures snakeComponents == old(snakeComponents[index := Step(snakeComponents[index], moveQueue[index][0])])
      ensures moveQueue == old(moveQueue[index := moveQueue[index][1..]])
      ensures delegate != null ==> delegate.notifications == old(delegate.notifications + [(snakeComponents[index], Step(snakeComponents[index], moveQueue[index][0]))])
    {
      var nextMove := moveQueue[index][0];
      var next := Move(snakeComponents[index], nextMove);
      snakeComponents := snakeComponents[index := next];
      moveQueue := moveQueue[index := moveQueue[index][1..]];
    }

    /** `addPart()`: when there is a growth spot (a last segment whose queue has a first move) and the
        delegate has a square there, of whatever type, the part is appended with its queue and that
        square becomes snake; otherwise nothing changes. Growth keeps the formation. */
    method AddPart()
      modifies this`snakeComponents, this`moveQueue, if delegate != null then {delegate.squares} else {}
      ensures var spot := old(K.GrowthSpot(snakeComponents, moveQueue));
              if spot.Some? && delegate != null && spot.value.0 in old(delegate.squares.cells) then
                && snakeComponents == old(snakeComponents) + [spot.value.0]
                && moveQueue == old(moveQueue) + [spot.value.1]
                && delegate.squares.cells == old(delegate.squares.cells)[spot.value.0 := SquareType.Snake]
              else
                && snakeComponents == old(snakeComponents) && moveQueue == old(moveQueue)
                && (delegate != null ==> delegate.squares.cells == old(delegate.squares.cells))
      ensures old(Valid()) ==> Valid()
    {
      if Valid() {
        K.GrowthKeepsFormation(snakeComponents, moveQueue);
      }
      if |snakeComponents| > 0 && |moveQueue| > 0 && |moveQueue[|moveQueue| - 1]| > 0 {
        var lastPart := snakeComponents[|snakeComponents| - 1];
        var queue := moveQueue[|moveQueue| - 1];
        var move := queue[0];
        var newPartCoords := Behind(lastPart, move);
        if delegate != null && delegate.squares.Get(newPartCoords).Some? {
          moveQueue := moveQueue + [[move] + queue];
          snakeComponents := snakeComponents + [newPartCoords];
          delegate.squares.Set(newPartCoords, SquareType.Snake);
        }
      }
    }

    /** `reset()`: moving right, no segments, the seeded queues. */
    method Reset()
      modifies this`currentMove, this`snakeComponents, this`moveQueue
      ensures currentMove == Right && snakeComponents == [] && moveQueue == K.SeededQueues()
    {
      currentMove := Right;
      snakeComponents := [];
      moveQueue := K.SeededQueues();
    }

    /** `insert(_:at:)`: the element placed before position `index`; the index must be within bounds. */
    method Insert(element: Coord, index: int)
      requires 0 <= index <= |snakeComponents|
      modifies this`snakeComponents
      ensures |snakeComponents| == |old(snakeComponents)| + 1 && snakeComponents[index] == element
      ensures snakeComponents[..index] == old(snakeComponents)[..index]
      ensures snakeComponents[index + 1..] == old(snakeComponents)[index..]
    {
      snakeComponents := snakeComponents[..index] + [element] + snakeComponents[index..];
    }

    /** `append(_:)`. */
    method Append(element: Coord)
      modifies this`snakeComponents
      ensures snakeComponents == old(snakeComponents) + [element]
    {
      snakeComponents := snakeComponents + [element];
    }

    /** `copy(with:)`: a new snake with the same move, components and queues and no delegate. Its
        fields are values, so later changes to either snake do not reach the other. */
    method Copy() returns (c: Snake)
      ensures fresh(c)
      ensures c.currentMove == currentMove && c.snakeComponents == snakeComponents && c.moveQueue == moveQueue
      ensures c.delegate == null
    {
      c := new Snake();
      c.currentMove := currentMove;
      c.snakeComponents := snakeComponents;
      c.moveQueue := moveQueue;
    }
  }
}
