/** Board coordinates and the `Move` enum shared by the snake, the board and the AI. */
module Geometry {

  /** A cell as (row, column): the tag of its row stack and the tag of the square in that row. */
  type Coord = (int, int)

  /** The four directions, declared in the order `Move.allCases` enumerates them. */
  datatype Move = Left | Right | Up | Down

  /** `Move.allCases`. */
  const AllCases: seq<Move> := [Left, Right, Up, Down]

  /** Two cells side by side: in the same row one column apart, or in the same column one row apart. */
  predicate Adjacent(a: Coord, b: Coord) {
    || (a.0 == b.0 && (a.1 - b.1 == 1 || b.1 - a.1 == 1))
    || (a.1 == b.1 && (a.0 - b.0 == 1 || b.0 - a.0 == 1))
  }

  /** The cell one step away from `c` in direction `m`: up and down change the row by -1 and +1,
      left and right the column by -1 and +1. There is no wrap-around. */
  function Step(c: Coord, m: Move): (r: Coord)
    ensures Adjacent(c, r)
  {
    match m
    case Up => (c.0 - 1, c.1)
    case Down => (c.0 + 1, c.1)
    case Left => (c.0, c.1 - 1)
    case Right => (c.0, c.1 + 1)
  }

  /** The cell where a new tail part goes when the tail's next move is `m`: one step against `m`,
      so that stepping from it by `m` reaches `c`. */
  function Behind(c: Coord, m: Move): (b: Coord)
    ensures Step(b, m) == c
  {
    match m
    case Up => (c.0 + 1, c.1)
    case Down => (c.0 - 1, c.1)
    case Right => (c.0, c.1 - 1)
    case Left => (c.0, c.1 + 1)
  }

  /** Shifting every cell by the same offset commutes with a step. */
  function Shift(c: Coord, d: Coord): Coord {
    (c.0 + d.0, c.1 + d.1)
  }

  /** Every direction is enumerated, at the index `AllCases` gives it. */
  lemma AllCasesComplete(m: Move)
    ensures exists i :: 0 <= i < |AllCases| && AllCases[i] == m
  {
    match m
    case Left => assert AllCases[0] == m;
    case Right => assert AllCases[1] == m;
    case Up => assert AllCases[2] == m;
    case Down => assert AllCases[3] == m;
  }
}
