/** The AI's move chooser (AI.swift) as functions of what it reads: the live squares, the reward
    (food) coordinate and the head. */
module Scoring {
  import opened Wrappers
  import opened Geometry
  import opened Squares

  /** The score of a square that ends the game. */
  const Veto: real := -100000.0
  /** The score of a food square. */
  const FoodScore: real := 20.0
  /** `getRewardForMove` stops recursing when `iterations` reaches this. */
  const DepthCap: nat := 40

  /** Squared Euclidean distance from `square` to the reward: zero exactly on the reward itself. */
  function DistanceSquared(square: Coord, reward: Coord): (r: nat)
    ensures r == 0 <==> square == reward
  {
    var dr, dc := reward.0 - square.0, reward.1 - square.1;
    assert dr != 0 ==> dr * dr > 0;
    assert dc != 0 ==> dc * dc > 0;
    dr * dr + dc * dc
  }

  /** The empty-square term is at most the food score wherever the source's `5 / sqrt(d)` is finite,
      that is, at every positive squared distance. (At distance 0 the source's term is infinite.) */
  ghost predicate TermAtMostFood(inverseDistance: int -> real) {
    forall d :: d > 0 ==> inverseDistance(d) <= FoodScore
  }

  /** The reward square is not an empty square: so no empty square is at distance 0, and every
      empty-square score in the source is finite. This holds while food lies at the reward. */
  predicate RewardNotEmpty(cells: map<Coord, SquareType>, reward: Coord) {
    Lookup(cells, reward) != Some(Empty)
  }

  /** `checkSquare`: the veto for a missing, obstacle or snake square, 20 for food, and for an empty
      square `inverseDistance` of its squared distance to the reward (the source's `5 / sqrt(d)`
      in floating point, which the model leaves abstract). When that term is never negative, a score
      is negative exactly when the square ends the game, and then it is the veto; when the term is
      at most 20 at every positive distance and the reward square is not empty, no score exceeds 20. */
  function CheckSquare(cells: map<Coord, SquareType>, reward: Coord, inverseDistance: int -> real, square: Coord): (r: real)
    ensures Lookup(cells, square) == Some(Food) ==> r == FoodScore
    ensures (forall d :: inverseDistance(d) >= 0.0) ==>
              (r < 0.0 <==> Lookup(cells, square) !in {Some(Empty), Some(Food)})
    ensures r < 0.0 && (forall d :: inverseDistance(d) >= 0.0) ==> r == Veto
    ensures TermAtMostFood(inverseDistance) && RewardNotEmpty(cells, reward) ==> r <= FoodScore
  {
    match Lookup(cells, square)
    case None => Veto
    case Some(t) =>
      match t
      case Empty => inverseDistance(DistanceSquared(square, reward))
      case Food => FoodScore
      case Obstacle => Veto
      case Snake => Veto
  }

  /** `Move.allCases.map { checkDirection(square: head, move: $0) }`: each move with the score of the
      square it leads to. */
  function Candidates(cells: map<Coord, SquareType>, reward: Coord, inverseDistance: int -> real, head: Coord): (r: seq<(Move, real)>)
    ensures |r| == |AllCases|
  {
    seq(|AllCases|, i requires 0 <= i < |AllCases| =>
      (AllCases[i], CheckSquare(cells, reward, inverseDistance, Step(head, AllCases[i]))))
  }

  /** `sorted(by: { $0.1 > $1.1 }).first` with a stable sort: the index of the first entry whose score
      is maximal. */
  function BestIndex(entries: seq<(Move, real)>): (k: nat)
    requires |entries| > 0
    ensures k < |entries|
    ensures forall j :: 0 <= j < |entries| ==> entries[j].1 <= entries[k].1
    ensures forall j :: 0 <= j < k ==> entries[j].1 < entries[k].1
    decreases |entries|
  {
    if |entries| == 1 then 0
    else
      var k := BestIndex(entries[..|entries| - 1]);
      if entries[|entries| - 1].1 > entries[k].1 then |entries| - 1 else k
  }

  /** The entry a stable descending sort puts first. */
  function Best(entries: seq<(Move, real)>): (Move, real)
    requires |entries| > 0
  {
    entries[BestIndex(entries)]
  }

  /** `getRewardForMove`: the greedy rollout from `head`. At the depth cap it returns `acc`; otherwise it
      takes the best-scoring next square, stops with that score added when it is negative or above 20,
      and otherwise moves there and recurses one level deeper. */
  function Rollout(cells: map<Coord, SquareType>, reward: Coord, inverseDistance: int -> real, head: Coord, iterations: nat, acc: real): real
    requires iterations <= DepthCap
    decreases DepthCap - iterations
  {
    if iterations == DepthCap then acc
    else
      var best := Best(Candidates(cells, reward, inverseDistance, head));
      if best.1 < 0.0 || best.1 > FoodScore then acc + best.1
      else Rollout(cells, reward, inverseDistance, Step(head, best.0), iterations + 1, acc + best.1)
  }

  /** What `getMove` records for move `m`: the score of the square `m` leads to, plus the rollout from
      that square. */
  function Total(cells: map<Coord, SquareType>, reward: Coord, inverseDistance: int -> real, head: Coord, m: Move): real {
    var first := Step(head, m);
    Rollout(cells, reward, inverseDistance, first, 0, CheckSquare(cells, reward, inverseDistance, first))
  }

  /** `moveRewardArr`: every move of `Move.allCases` with its total, in enumeration order. */
  function Totals(cells: map<Coord, SquareType>, reward: Coord, inverseDistance: int -> real, head: Coord): (r: seq<(Move, real)>)
    ensures |r| == |AllCases|
  {
    seq(|AllCases|, i requires 0 <= i < |AllCases| =>
      (AllCases[i], Total(cells, reward, inverseDistance, head, AllCases[i])))
  }

  /** `getMove`: no move when the snake has no head (the completion is never called); otherwise a move
      whose total is at least every other move's total, the first such in enumeration order. */
  function Choose(cells: map<Coord, SquareType>, reward: Coord, inverseDistance: int -> real, body: seq<Coord>): (r: Option<Move>)
    ensures r.Some? <==> |body| > 0
    ensures r.Some? ==> forall m :: Total(cells, reward, inverseDistance, body[0], m) <= Total(cells, reward, inverseDistance, body[0], r.value)
  {
    if |body| == 0 then None
    else
      var totals := Totals(cells, reward, inverseDistance, body[0]);
      var k := BestIndex(totals);
      assert forall m :: Total(cells, reward, inverseDistance, body[0], m) <= totals[k].1 by {
        forall m ensures Total(cells, reward, inverseDistance, body[0], m) <= totals[k].1 {
          AllCasesComplete(m);
          var i :| 0 <= i < |AllCases| && AllCases[i] == m;
          assert totals[i].1 == Total(cells, reward, inverseDistance, body[0], m);
        }
      }
      Some(totals[k].0)
  }

  /** At the depth cap the rollout returns its accumulated reward unchanged. */
  lemma RolloutAtCap(cells: map<Coord, SquareType>, reward: Coord, inverseDistance: int -> real, head: Coord, acc: real)
    ensures Rollout(cells, reward, inverseDistance, head, DepthCap, acc) == acc
  {
  }

  /** Reaching food does not stop the rollout: a best score of exactly 20 is neither negative nor above
      20, so the rollout moves onto the food square and goes on. */
  lemma RolloutPassesFood(cells: map<Coord, SquareType>, reward: Coord, inverseDistance: int -> real, head: Coord, iterations: nat, acc: real)
    requires iterations < DepthCap
    requires Best(Candidates(cells, reward, inverseDistance, head)).1 == FoodScore
    ensures var m := Best(Candidates(cells, reward, inverseDistance, head)).0;
            Rollout(cells, reward, inverseDistance, head, iterations, acc)
              == Rollout(cells, reward, inverseDistance, Step(head, m), iterations + 1, acc + FoodScore)
  {
  }

  /** Boxed in: when every neighbour of the head ends the game, the rollout stops at once with exactly
      one veto added. */
  lemma RolloutBoxedIn(cells: map<Coord, SquareType>, reward: Coord, inverseDistance: int -> real, head: Coord, iterations: nat, acc: real)
    requires forall d :: inverseDistance(d) >= 0.0
    requires iterations < DepthCap
    requires forall m :: Lookup(cells, Step(head, m)) !in {Some(Empty), Some(Food)}
    ensures Rollout(cells, reward, inverseDistance, head, iterations, acc) == acc + Veto
  {
    var cands := Candidates(cells, reward, inverseDistance, head);
    var k := BestIndex(cands);
    assert Lookup(cells, Step(head, AllCases[k])) !in {Some(Empty), Some(Food)};
  }

  /** If the empty-square term never exceeds 20 at a positive distance and the reward square is not
      empty, every step of a rollout adds at most 20, so from depth `iterations` it adds at most 20 for
      each remaining level. */
  lemma {:induction false} RolloutUpperBound(cells: map<Coord, SquareType>, reward: Coord, inverseDistance: int -> real, head: Coord, iterations: nat, acc: real)
    requires TermAtMostFood(inverseDistance) && RewardNotEmpty(cells, reward)
    requires iterations <= DepthCap
    ensures Rollout(cells, reward, inverseDistance, head, iterations, acc) <= acc + FoodScore * (DepthCap - iterations) as real
    decreases DepthCap - iterations
  {
    if iterations < DepthCap {
      var cands := Candidates(cells, reward, inverseDistance, head);
      var best := Best(cands);
      var k := BestIndex(cands);
      assert best == cands[k];
      assert best.1 <= FoodScore;
      if 0.0 <= best.1 {
        RolloutUpperBound(cells, reward, inverseDistance, Step(head, best.0), iterations + 1, acc + best.1);
      }
    }
  }

  /** If the empty-square term is never negative, a rollout loses at most one veto: every step it
      continues with adds a non-negative score, and the one that stops on a veto adds exactly one. */
  lemma {:induction false} RolloutLowerBound(cells: map<Coord, SquareType>, reward: Coord, inverseDistance: int -> real, head: Coord, iterations: nat, acc: real)
    requires forall d :: inverseDistance(d) >= 0.0
    requires iterations <= DepthCap
    ensures Rollout(cells, reward, inverseDistance, head, iterations, acc) >= acc + Veto
    decreases DepthCap - iterations
  {
    if iterations < DepthCap {
      var cands := Candidates(cells, reward, inverseDistance, head);
      var best := Best(cands);
      var k := BestIndex(cands);
      assert best == cands[k];
      if best.1 < 0.0 {
        assert best.1 == Veto;
      } else if best.1 <= FoodScore {
        RolloutLowerBound(cells, reward, inverseDistance, Step(head, best.0), iterations + 1, acc + best.1);
      }
    }
  }

  /** The total of a move into a square that ends the game is the veto plus at most 800, and so far
      below the total of any move into a free square, while the reward square is not empty. */
  lemma VetoedMoveTotal(cells: map<Coord, SquareType>, reward: Coord, inverseDistance: int -> real, head: Coord, m: Move)
    requires forall d :: inverseDistance(d) >= 0.0
    requires TermAtMostFood(inverseDistance) && RewardNotEmpty(cells, reward)
    ensures Lookup(cells, Step(head, m)) !in {Some(Empty), Some(Food)} ==>
              Total(cells, reward, inverseDistance, head, m) <= Veto + FoodScore * DepthCap as real
    ensures Lookup(cells, Step(head, m)) in {Some(Empty), Some(Food)} ==>
              Total(cells, reward, inverseDistance, head, m) >= Veto
  {
    var first := Step(head, m);
    var s := CheckSquare(cells, reward, inverseDistance, first);
    RolloutUpperBound(cells, reward, inverseDistance, first, 0, s);
    RolloutLowerBound(cells, reward, inverseDistance, first, 0, s);
  }
}
