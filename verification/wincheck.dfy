/**
  The 3x3 board of the game and the win/draw scan over it.

  A board is nine cells in row-major order (row = index / 3, column = index % 3);
  a cell is empty or holds the mark of one of the two players. `CheckWinner`
  walks the eight fixed lines in their fixed order and reports the first one
  whose three cells carry the same mark, else a draw on a full board, else
  nothing.
 */
module WinCheck {

  datatype Option<T> = None | Some(value: T)

  datatype Player = X | O

  /** The cell values of the game; `Empty` is the empty cell that script.js stores as null. */
  datatype Cell = Empty | Mark(player: Player)

  type Index = i: int | 0 <= i < 9

  /** A board always has exactly nine cells. */
  type Board = b: seq<Cell> | |b| == 9 witness [Empty, Empty, Empty, Empty, Empty, Empty, Empty, Empty, Empty]

  /** The result of a scan: a win with the index of its line, or a draw. */
  datatype Outcome = Won(winner: Player, line: nat) | Drawn

  function Other(p: Player): Player {
    if p == X then O else X
  }

  /** The eight winning lines: rows top to bottom, columns left to right, then both diagonals. */
  const Lines: seq<(Index, Index, Index)> :=
    [(0, 1, 2), (3, 4, 5), (6, 7, 8),
     (0, 3, 6), (1, 4, 7), (2, 5, 8),
     (0, 4, 8), (2, 4, 6)]

  const EmptyBoard: Board := [Empty, Empty, Empty, Empty, Empty, Empty, Empty, Empty, Empty]

  /** Line `k` holds three equal, non-empty cells. */
  predicate Complete(b: Board, k: int)
    requires 0 <= k < 8
  {
    var (x, y, z) := Lines[k];
    b[x] != Empty && b[x] == b[y] && b[x] == b[z]
  }

  /** Line `k` holds three marks of player `p`. */
  predicate CompleteFor(b: Board, k: int, p: Player)
    requires 0 <= k < 8
  {
    var (x, y, z) := Lines[k];
    b[x] == Mark(p) && b[y] == Mark(p) && b[z] == Mark(p)
  }

  predicate NoLine(b: Board) {
    forall k :: 0 <= k < 8 ==> !Complete(b, k)
  }

  /** Every cell is taken: no cell of the board is empty. */
  predicate Full(b: Board) {
    forall j :: 0 <= j < 9 ==> b[j] != Empty
  }

  /** Number of cells of `s` that hold `c`. */
  function Count(s: seq<Cell>, c: Cell): nat
  {
    if |s| == 0 then 0 else Count(s[..|s| - 1], c) + (if s[|s| - 1] == c then 1 else 0)
  }

  function Empties(b: Board): nat {
    Count(b, Empty)
  }

  /** The scan over lines `i..7`: the first complete one, if any. */
  function FirstLine(b: Board, i: nat): (r: Option<nat>)
    requires i <= 8
    ensures r.Some? ==> i <= r.value < 8 && Complete(b, r.value)
    ensures r.Some? ==> forall k :: i <= k < r.value ==> !Complete(b, k)
    ensures r.None? ==> forall k :: i <= k < 8 ==> !Complete(b, k)
    decreases 8 - i
  {
    if i == 8 then None
    else if Complete(b, i) then Some(i)
    else FirstLine(b, i + 1)
  }

  /**
    The first complete line in the fixed order wins, reported with its owner and
    its index; with no complete line, a full board is a draw and any other board
    has no result.
   */
  function CheckWinner(b: Board): (r: Option<Outcome>)
    ensures r.Some? && r.value.Won? ==>
              && r.value.line < 8
              && CompleteFor(b, r.value.line, r.value.winner)
              && forall k :: 0 <= k < r.value.line ==> !Complete(b, k)
    ensures (r.Some? && r.value.Won?) <==> !NoLine(b)
    ensures r == Some(Drawn) <==> NoLine(b) && Full(b)
    ensures r.None? <==> NoLine(b) && !Full(b)
  {
    match FirstLine(b, 0)
    case Some(k) => Some(Won(b[Lines[k].0].player, k))
    case None => if Full(b) then Some(Drawn) else None
  }

  /** Writing `v` over cell `i` changes the count of `c` by what left and what arrived. */
  lemma {:induction false} CountUpdate(s: seq<Cell>, i: int, v: Cell, c: Cell)
    requires 0 <= i < |s|
    ensures Count(s[i := v], c) ==
            Count(s, c) - (if s[i] == c then 1 else 0) + (if v == c then 1 else 0)
    decreases |s|
  {
    var n := |s| - 1;
    if i < n {
      assert s[i := v][..n] == s[..n][i := v];
      CountUpdate(s[..n], i, v, c);
    } else {
      assert s[i := v][..n] == s[..n];
    }
  }

  /** Placing a mark on an empty cell uses up exactly one empty cell. */
  lemma PlaceUsesEmpty(b: Board, i: Index, p: Player)
    requires b[i] == Empty
    ensures Empties(b[i := Mark(p)]) == Empties(b) - 1
    ensures Count(b[i := Mark(p)], Mark(p)) == Count(b, Mark(p)) + 1
    ensures Count(b[i := Mark(p)], Mark(Other(p))) == Count(b, Mark(Other(p)))
  {
    CountUpdate(b, i, Mark(p), Empty);
    CountUpdate(b, i, Mark(p), Mark(p));
    CountUpdate(b, i, Mark(p), Mark(Other(p)));
  }

  /** A player who owns a line has at least three marks on the board. */
  lemma {:induction false} LineNeedsThreeMarks(b: Board, k: int, p: Player)
    requires 0 <= k < 8
    requires CompleteFor(b, k, p)
    ensures Count(b, Mark(p)) >= 3
  {
    var (x, y, z) := Lines[k];
    assert x != y && y != z && x != z;
    var b1 := b[x := Empty];
    var b2 := b1[y := Empty];
    var b3 := b2[z := Empty];
    CountUpdate(b, x, Empty, Mark(p));
    CountUpdate(b1, y, Empty, Mark(p));
    CountUpdate(b2, z, Empty, Mark(p));
  }

  /** A sequence made of `c` alone counts `c` once per cell; one without `c` counts none. */
  lemma {:induction false} CountUniform(s: seq<Cell>, c: Cell)
    ensures (forall j :: 0 <= j < |s| ==> s[j] == c) ==> Count(s, c) == |s|
    ensures (forall j :: 0 <= j < |s| ==> s[j] != c) ==> Count(s, c) == 0
  {
    if |s| > 0 {
      CountUniform(s[..|s| - 1], c);
    }
  }

  /** Every cell is empty, an X or an O. */
  lemma {:induction false} CountPartition(s: seq<Cell>)
    ensures Count(s, Empty) + Count(s, Mark(X)) + Count(s, Mark(O)) == |s|
  {
    if |s| > 0 {
      CountPartition(s[..|s| - 1]);
      match s[|s| - 1]
      case Empty =>
      case Mark(X) =>
      case Mark(O) =>
    }
  }

  /** The empty board has no complete line and is not full. */
  lemma EmptyBoardHasNoResult()
    ensures CheckWinner(EmptyBoard) == None
    ensures Empties(EmptyBoard) == 9
    ensures Count(EmptyBoard, Mark(X)) == 0 && Count(EmptyBoard, Mark(O)) == 0
  {
    CountUniform(EmptyBoard, Empty);
    CountUniform(EmptyBoard, Mark(X));
    CountUniform(EmptyBoard, Mark(O));
    assert !Full(EmptyBoard) by { assert EmptyBoard[0] == Empty; }
    assert NoLine(EmptyBoard) by {
      forall k | 0 <= k < 8 ensures !Complete(EmptyBoard, k) {
        assert EmptyBoard[Lines[k].0] == Empty;
      }
    }
  }
}
