/** Snake kinematics as values: the body (head first) and one queue of pending moves per segment.
    Both `Snake` and `BoardViewModel` run exactly these rules; their methods are proved against them. */
module Kinematics {
  import opened Wrappers
  import opened Geometry

  /** The queues a reset seeds: segment i waits for i moves to the right. */
  function SeededQueues(): seq<seq<Move>> {
    [[], [Right], [Right, Right], [Right, Right, Right]]
  }

  /** Each segment i stepped by moves[i]. */
  function Advance(body: seq<Coord>, moves: seq<Move>): (r: seq<Coord>)
    requires |moves| == |body|
    ensures |r| == |body|
  {
    seq(|body|, i requires 0 <= i < |body| => Step(body[i], moves[i]))
  }

  /** The (from, to) notifications the segments send, head to tail, when stepped by `moves`. */
  function Transitions(body: seq<Coord>, moves: seq<Move>): (r: seq<(Coord, Coord)>)
    requires |moves| == |body|
    ensures |r| == |body|
  {
    seq(|body|, i requires 0 <= i < |body| => (body[i], Step(body[i], moves[i])))
  }

  /** A coasting tick moves every segment in the current direction. */
  function CoastMoves(n: nat, m: Move): (r: seq<Move>)
    ensures |r| == n
  {
    seq(n, _ => m)
  }

  /** The move segment i takes on a tick with move `m`: the first of its queue after `m` is appended. */
  function TickMoves(body: seq<Coord>, queues: seq<seq<Move>>, m: Move): (r: seq<Move>)
    requires |body| <= |queues|
    ensures |r| == |body|
  {
    seq(|body|, i requires 0 <= i < |body| => (queues[i] + [m])[0])
  }

  /** The queues after a tick with move `m`: `m` appended to every queue, then the first move removed
      from the queue of each of the n body segments. */
  function Popped(queues: seq<seq<Move>>, m: Move, n: nat): (r: seq<seq<Move>>)
    requires n <= |queues|
    ensures |r| == |queues|
  {
    seq(|queues|, i requires 0 <= i < |queues| => if i < n then (queues[i] + [m])[1..] else queues[i] + [m])
  }

  /** Every queue with `m` appended: the first loop of a tick with a move. */
  function Appended(queues: seq<seq<Move>>, m: Move): (r: seq<seq<Move>>)
    ensures |r| == |queues|
  {
    seq(|queues|, i requires 0 <= i < |queues| => queues[i] + [m])
  }

  /** The first move of each of the first n queues: what the second loop of a tick steps by. */
  function FirstMoves(queues: seq<seq<Move>>, n: nat): (r: seq<Move>)
    requires n <= |queues| && forall i :: 0 <= i < n ==> |queues[i]| > 0
    ensures |r| == n
  {
    seq(n, i requires 0 <= i < n => queues[i][0])
  }

  /** The first n queues with their first move removed: what the second loop of a tick leaves. */
  function Dropped(queues: seq<seq<Move>>, n: nat): (r: seq<seq<Move>>)
    requires n <= |queues| && forall i :: 0 <= i < n ==> |queues[i]| > 0
    ensures |r| == |queues|
  {
    seq(|queues|, i requires 0 <= i < |queues| => if i < n then queues[i][1..] else queues[i])
  }

  /** The two loops of a tick with a move compose to `TickMoves` and `Popped`. */
  lemma AppendThenDrop(body: seq<Coord>, queues: seq<seq<Move>>, m: Move)
    requires |body| <= |queues|
    ensures FirstMoves(Appended(queues, m), |body|) == TickMoves(body, queues, m)
    ensures Dropped(Appended(queues, m), |body|) == Popped(queues, m, |body|)
  {
  }

  /** The move each segment makes on a tick: the current direction for all when coasting (`nil`),
      otherwise each segment's next queued move once the new move is appended. */
  function SegmentMoves(body: seq<Coord>, queues: seq<seq<Move>>, current: Move, input: Option<Move>): (r: seq<Move>)
    requires input.Some? ==> |body| <= |queues|
    ensures |r| == |body|
  {
    match input
    case None => CoastMoves(|body|, current)
    case Some(m) => TickMoves(body, queues, m)
  }

  /** The queues after a tick: untouched when coasting, popped after the append otherwise. */
  function QueuesAfter(queues: seq<seq<Move>>, input: Option<Move>, n: nat): (r: seq<seq<Move>>)
    requires input.Some? ==> n <= |queues|
    ensures |r| == |queues|
  {
    match input
    case None => queues
    case Some(m) => Popped(queues, m, n)
  }

  /** `currentMove` after a tick: the new move, or unchanged when coasting. */
  function CurrentAfter(current: Move, input: Option<Move>): Move {
    match input
    case None => current
    case Some(m) => m
  }

  /** Queue i holds exactly i moves: the head's queue is empty. */
  ghost predicate QueueLengths(queues: seq<seq<Move>>) {
    forall i :: 0 <= i < |queues| ==> |queues[i]| == i
  }

  /** Each queue is its predecessor's queue with one older move in front: segment i makes, one tick
      later, every move segment i-1 makes. */
  ghost predicate Lagging(queues: seq<seq<Move>>) {
    forall i :: 0 < i < |queues| ==> |queues[i]| > 0 && queues[i][1..] == queues[i - 1]
  }

  /** Stepping segment i by its next queued move lands on segment i-1. */
  ghost predicate Linked(body: seq<Coord>, queues: seq<seq<Move>>)
    requires |body| <= |queues|
  {
    forall i :: 0 < i < |body| ==> |queues[i]| > 0 && Step(body[i], queues[i][0]) == body[i - 1]
  }

  /** The kinematic invariant: one queue per segment, lengths 0, 1, 2, …, each lagging the one ahead,
      and each segment one queued step behind its predecessor. */
  ghost predicate Formation(body: seq<Coord>, queues: seq<seq<Move>>) {
    |body| == |queues| && QueueLengths(queues) && Lagging(queues) && Linked(body, queues)
  }

  /** The four cells row 0 contributes to a fresh board, head first. */
  function InitialBody(): seq<Coord> {
    [(0, 3), (0, 2), (0, 1), (0, 0)]
  }

  /** The seeded queues have lengths 0 to 3, each lags the previous, and they fit the initial body. */
  lemma SeededFormation()
    ensures QueueLengths(SeededQueues()) && Lagging(SeededQueues())
    ensures Formation(InitialBody(), SeededQueues())
  {
    var q := SeededQueues();
    assert q[1][1..] == q[0] && q[2][1..] == q[1] && q[3][1..] == q[2];
  }

  /** A tick with a move keeps the formation, the head steps by `m` and every other segment moves
      onto the cell its predecessor held before the tick. */
  lemma {:induction false} TickFollows(body: seq<Coord>, queues: seq<seq<Move>>, m: Move)
    requires Formation(body, queues)
    ensures var body' := Advance(body, TickMoves(body, queues, m));
            && Formation(body', Popped(queues, m, |body|))
            && (|body| > 0 ==> body'[0] == Step(body[0], m))
            && forall i :: 0 < i < |body| ==> body'[i] == body[i - 1]
  {
    var n := |body|;
    var moves := TickMoves(body, queues, m);
    var body' := Advance(body, moves);
    var queues' := Popped(queues, m, n);
    forall i | 0 <= i < n
      ensures i > 0 ==> queues'[i] == queues[i - 1] + [m]
      ensures i == 0 ==> queues'[i] == [] && moves[i] == m
      ensures i > 0 ==> moves[i] == queues[i][0] && body'[i] == body[i - 1]
    {
      if i > 0 {
        assert (queues[i] + [m])[1..] == queues[i][1..] + [m];
      } else {
        assert queues[0] == [];
      }
    }
    forall i | 0 < i < n
      ensures |queues'[i]| > 0 && queues'[i][1..] == queues'[i - 1]
      ensures Step(body'[i], queues'[i][0]) == body'[i - 1]
    {
      if i > 1 {
        assert (queues[i - 1] + [m])[1..] == queues[i - 1][1..] + [m];
        assert queues'[i][0] == queues[i - 1][0];
      }
    }
  }

  /** A coasting tick translates the whole body by one step and keeps the formation. */
  lemma {:induction false} CoastKeepsFormation(body: seq<Coord>, queues: seq<seq<Move>>, m: Move)
    requires Formation(body, queues)
    ensures Formation(Advance(body, CoastMoves(|body|, m)), queues)
  {
    var body' := Advance(body, CoastMoves(|body|, m));
    forall i | 0 < i < |body|
      ensures Step(body'[i], queues[i][0]) == body'[i - 1]
    {
      var d := (body'[i].0 - body[i].0, body'[i].1 - body[i].1);
      assert body'[i - 1] == Shift(body[i - 1], d);
      assert Step(body'[i], queues[i][0]) == Shift(Step(body[i], queues[i][0]), d);
    }
  }

  /** Both kinds of tick keep the formation. */
  lemma MakeMoveKeepsFormation(body: seq<Coord>, queues: seq<seq<Move>>, current: Move, input: Option<Move>)
    requires Formation(body, queues)
    ensures Formation(Advance(body, SegmentMoves(body, queues, current, input)), QueuesAfter(queues, input, |body|))
  {
    match input
    case None => CoastKeepsFormation(body, queues, current);
    case Some(m) => TickFollows(body, queues, m);
  }

  /** Where `addPart` puts a new tail part, and that part's queue: one step against the first move of
      the last queue, seeded with that move followed by the last queue. `None` when the body is empty
      or the last queue has no move. */
  function GrowthSpot(body: seq<Coord>, queues: seq<seq<Move>>): Option<(Coord, seq<Move>)> {
    if |body| > 0 && |queues| > 0 && |queues[|queues| - 1]| > 0 then
      var q := queues[|queues| - 1];
      Some((Behind(body[|body| - 1], q[0]), [q[0]] + q))
    else
      None
  }

  /** Growing keeps the formation, and a formation of two or more segments always has a growth spot. */
  lemma {:induction false} GrowthKeepsFormation(body: seq<Coord>, queues: seq<seq<Move>>)
    requires Formation(body, queues)
    ensures |body| >= 2 ==> GrowthSpot(body, queues).Some?
    ensures GrowthSpot(body, queues).Some? ==>
              var (c, q) := GrowthSpot(body, queues).value;
              Formation(body + [c], queues + [q])
  {
    if GrowthSpot(body, queues).Some? {
      var (c, q) := GrowthSpot(body, queues).value;
      var n := |body|;
      var body', queues' := body + [c], queues + [q];
      assert queues'[n][1..] == queues'[n - 1];
      assert Step(body'[n], queues'[n][0]) == body'[n - 1];
      assert forall i :: 0 <= i < n ==> queues'[i] == queues[i] && body'[i] == body[i];
    }
  }

  /** The body and queues after ticking through `moves`, oldest first. */
  function Run(body: seq<Coord>, queues: seq<seq<Move>>, moves: seq<Move>): (r: (seq<Coord>, seq<seq<Move>>))
    requires |body| <= |queues|
    ensures |r.0| == |body| && |r.1| == |queues|
    decreases |moves|
  {
    if moves == [] then (body, queues)
    else
      var m := moves[|moves| - 1];
      var (b, q) := Run(body, queues, moves[..|moves| - 1]);
      (Advance(b, TickMoves(b, q, m)), Popped(q, m, |b|))
  }

  /** The formation holds after any number of ticks. */
  lemma {:induction false} RunKeepsFormation(body: seq<Coord>, queues: seq<seq<Move>>, moves: seq<Move>)
    requires Formation(body, queues)
    ensures Formation(Run(body, queues, moves).0, Run(body, queues, moves).1)
    decreases |moves|
  {
    if moves != [] {
      var (b, q) := Run(body, queues, moves[..|moves| - 1]);
      RunKeepsFormation(body, queues, moves[..|moves| - 1]);
      TickFollows(b, q, moves[|moves| - 1]);
    }
  }

  /** Exact path following: after k ticks, segment i is where the head was after k - i ticks. */
  lemma {:induction false} FollowsHeadPath(body: seq<Coord>, queues: seq<seq<Move>>, moves: seq<Move>, i: nat)
    requires Formation(body, queues)
    requires i < |body| && i <= |moves|
    ensures Run(body, queues, moves).0[i] == Run(body, queues, moves[..|moves| - i]).0[0]
    decreases i
  {
    if i == 0 {
      assert moves[..|moves|] == moves;
    } else {
      var k := |moves|;
      var prefix := moves[..k - 1];
      FollowsPredecessor(body, queues, moves, i);
      FollowsHeadPath(body, queues, prefix, i - 1);
      assert prefix[..|prefix| - (i - 1)] == moves[..k - i];
    }
  }

  /** One tick later, every segment stands where its predecessor stood. */
  lemma FollowsPredecessor(body: seq<Coord>, queues: seq<seq<Move>>, moves: seq<Move>, i: nat)
    requires Formation(body, queues)
    requires 0 < i < |body| && |moves| > 0
    ensures Run(body, queues, moves).0[i] == Run(body, queues, moves[..|moves| - 1]).0[i - 1]
  {
    var prefix := moves[..|moves| - 1];
    RunKeepsFormation(body, queues, prefix);
    var (b, q) := Run(body, queues, prefix);
    TickFollows(b, q, moves[|moves| - 1]);
  }

  /** A part added at the tail starts one queued step behind the former tail and, for any number of
      further ticks, retraces the former tail's path one tick later. */
  lemma GrownPartRetracesTail(body: seq<Coord>, queues: seq<seq<Move>>, c: Coord, q: seq<Move>, moves: seq<Move>)
    requires Formation(body, queues)
    requires GrowthSpot(body, queues) == Some((c, q))
    requires |moves| > 0
    ensures Step(c, q[0]) == body[|body| - 1]
    ensures Run(body + [c], queues + [q], moves).0[|body|] == Run(body + [c], queues + [q], moves[..|moves| - 1]).0[|body| - 1]
  {
    GrowthKeepsFormation(body, queues);
    FollowsPredecessor(body + [c], queues + [q], moves, |body|);
  }
}
