/** The squares of the board (SquareView.swift): their types and the grid of views that holds them. */
module Squares {
  import opened Wrappers
  import opened Geometry

  /** `SquareType`. */
  datatype SquareType = Snake | Empty | Food | Obstacle

  /** What a `getSquare` lookup finds at `c`: the square's type, or `nil` when no square has that row
      and column tag. */
  function Lookup(cells: map<Coord, SquareType>, c: Coord): Option<SquareType> {
    if c in cells then Some(cells[c]) else None
  }

  /** The squares are exactly the tagged rows `0..<rows` times columns `0..<cols`. */
  ghost predicate Rectangle(cells: map<Coord, SquareType>, rows: int, cols: int) {
    forall c {:trigger OnBoard(c, rows, cols)} :: c in cells <==> OnBoard(c, rows, cols)
  }

  /** Whether `c` lies within the first `rows` rows and `cols` columns. */
  predicate OnBoard(c: Coord, rows: int, cols: int) {
    0 <= c.0 < rows && 0 <= c.1 < cols
  }

  /** A rectangle of `rows - 1` rows with one more row of `cols` squares tagged `rows - 1` is a
      rectangle of `rows` rows. */
  lemma RectangleGrows(prev: map<Coord, SquareType>, last: map<Coord, SquareType>, rows: int, cols: int)
    requires rows > 0 && Rectangle(prev, rows - 1, cols)
    requires forall c :: c in last <==> c.0 == rows - 1 && 0 <= c.1 < cols
    ensures Rectangle(prev + last, rows, cols)
  {
    forall c ensures c in prev + last <==> OnBoard(c, rows, cols) {
      assert c in prev <==> OnBoard(c, rows - 1, cols);
    }
  }

  /** One row of squares with column tags `0..<|row|` and row tag `tag`. */
  function RowMap(tag: int, row: seq<SquareType>): (r: map<Coord, SquareType>)
  {
    map i | 0 <= i < |row| :: (tag, i) := row[i]
  }

  /** Square `c` of `RowMap`: present exactly in row `tag` at the row's columns, with that column's type. */
  lemma RowMapAt(tag: int, row: seq<SquareType>, c: Coord)
    ensures c in RowMap(tag, row) <==> c.0 == tag && 0 <= c.1 < |row|
    ensures c in RowMap(tag, row) ==> RowMap(tag, row)[c] == row[c.1]
  {
    if c.0 == tag && 0 <= c.1 < |row| {
      assert c == (tag, c.1);
    }
  }

  /** The keys and values of `RowMap`. */
  lemma RowMapShape(tag: int, row: seq<SquareType>)
    ensures forall c :: c in RowMap(tag, row) <==> c.0 == tag && 0 <= c.1 < |row|
    ensures forall c :: c in RowMap(tag, row) ==> RowMap(tag, row)[c] == row[c.1]
  {
    forall c
      ensures c in RowMap(tag, row) <==> c.0 == tag && 0 <= c.1 < |row|
      ensures c in RowMap(tag, row) ==> RowMap(tag, row)[c] == row[c.1]
    {
      RowMapAt(tag, row, c);
    }
  }

  /** The square views currently arranged in a board's vertical stack, by (row tag, column tag).
      A class because the views are shared: every copy of a board model sees the same squares,
      and writing a square's type is visible to all of them. */
  class Grid {
    var cells: map<Coord, SquareType>

    /** An empty stack: no rows arranged yet. */
    constructor ()
      ensures cells == map[]
    {
      cells := map[];
    }

    /** `getSquare(coordinates:)`: the type of the square tagged `c`, `nil` when there is none. */
    function Get(c: Coord): (r: Option<SquareType>)
      reads this
      ensures r.None? <==> c !in cells
      ensures r.Some? ==> r.value == cells[c]
    {
      Lookup(cells, c)
    }

    /** `square.model.type = t` on a square that a lookup found. */
    method Set(c: Coord, t: SquareType)
      requires c in cells
      modifies this
      ensures cells == old(cells)[c := t]
      ensures cells.Keys == old(cells).Keys
    {
      cells := cells[c := t];
    }

    /** Arranges one more row of squares, `row` maps column tags to types. */
    method AddRow(tag: int, row: seq<SquareType>)
      modifies this
      ensures cells == old(cells) + RowMap(tag, row)
    {
      cells := cells + RowMap(tag, row);
    }
  }
}
