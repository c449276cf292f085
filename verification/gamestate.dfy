/**
  The game state and its transitions: a move, a reset and a change of mode.

  The state is an immutable record; every transition returns the next state.
  A move on a finished game or on a taken cell is rejected and leaves the state
  as it was.
 */
module GameState {
  import opened WinCheck

  /** `vsAI` selects the mode in which O is played by the search. */
  datatype Game = Game(board: Board, current: Player, over: bool, vsAI: bool)

  /** A move is accepted only while the game runs and the target cell is empty. */
  predicate Accepts(g: Game, i: Index) {
    !g.over && g.board[i] == Empty
  }

  /**
    The state part of a move on cell `i`: write the current player's mark, then
    end the game on any result of the scan, or else hand the turn over. The
    second test mirrors the separate draw branch of script.js; the scan has already
    reported every full board, so that branch is never taken.
   */
  function MakeMove(g: Game, i: Index): (r: Game)
    ensures !Accepts(g, i) ==> r == g
    ensures Accepts(g, i) ==> r.board[i] == Mark(g.current)
    ensures Accepts(g, i) ==> forall j :: 0 <= j < 9 && j != i ==> r.board[j] == g.board[j]
    ensures Accepts(g, i) ==> r.vsAI == g.vsAI
    ensures Accepts(g, i) ==> (r.over <==> CheckWinner(r.board).Some?)
    ensures Accepts(g, i) && r.over ==> r.current == g.current
    ensures Accepts(g, i) && !r.over ==> r.current != g.current
  {
    if !Accepts(g, i) then g
    else
      var b: Board := g.board[i := Mark(g.current)];
      if CheckWinner(b).Some? then g.(board := b, over := true)
      else if Full(b) then g.(board := b, over := true)
      else g.(board := b, current := Other(g.current))
  }

  /** A fresh game in the same mode. */
  function Reset(g: Game): (r: Game)
    ensures forall j :: 0 <= j < 9 ==> r.board[j] == Empty
    ensures r.current == X && !r.over
    ensures r.vsAI == g.vsAI
  {
    Game(EmptyBoard, X, false, g.vsAI)
  }

  /** Choosing a mode also starts a fresh game. */
  function SetGameMode(g: Game, ai: bool): (r: Game)
    ensures forall j :: 0 <= j < 9 ==> r.board[j] == Empty
    ensures r.current == X && !r.over
    ensures r.vsAI == ai
  {
    Reset(g.(vsAI := ai))
  }

  /**
    After the human's move script.js schedules the search's reply, in the
    versus-search mode, when the move was accepted, did not end the game and
    handed the turn to O. The reply then finds a running game with O to move
    and an empty cell left, so the search has a move to make.
   */
  function SchedulesAIMove(g: Game, i: Index): (r: bool)
    ensures r <==> g.vsAI && Accepts(g, i) && !MakeMove(g, i).over && g.current == X
    ensures r ==> !MakeMove(g, i).over && MakeMove(g, i).current == O && !Full(MakeMove(g, i).board)
  {
    var n := MakeMove(g, i);
    g.vsAI && Accepts(g, i) && !n.over && n.current == O
  }

  function XCount(g: Game): nat { Count(g.board, Mark(X)) }
  function OCount(g: Game): nat { Count(g.board, Mark(O)) }

  /**
    What holds of every state reached from a fresh game by moves: X moves first,
    so X has as many marks as O or one more; the game is over exactly when the
    scan reports a result; while it runs the player to move is X exactly when the
    counts are equal, and once it is over the current player is the one who made
    the last move and the other player owns no line.
   */
  ghost predicate Consistent(g: Game) {
    && (XCount(g) == OCount(g) || XCount(g) == OCount(g) + 1)
    && (g.over <==> CheckWinner(g.board).Some?)
    && (!g.over ==> (g.current == X <==> XCount(g) == OCount(g)))
    && (g.over ==> (g.current == X <==> XCount(g) == OCount(g) + 1))
    && (g.over ==> forall k :: 0 <= k < 8 ==> !CompleteFor(g.board, k, Other(g.current)))
  }

  /** A fresh game, in either mode, is consistent. */
  lemma ResetConsistent(g: Game, ai: bool)
    ensures Consistent(Reset(g))
    ensures Consistent(SetGameMode(g, ai))
  {
    EmptyBoardHasNoResult();
  }

  /** A line that is complete after a mark went on cell `i` was complete before or runs through `i`. */
  lemma NewLineRunsThrough(b: Board, i: Index, p: Player, q: Player, k: int)
    requires 0 <= k < 8
    requires CompleteFor(b[i := Mark(p)], k, q)
    ensures CompleteFor(b, k, q) || (q == p && i in {Lines[k].0, Lines[k].1, Lines[k].2})
  {
  }

  /** Every move, accepted or not, keeps a consistent state consistent. */
  lemma {:induction false} MakeMovePreservesConsistent(g: Game, i: Index)
    requires Consistent(g)
    ensures Consistent(MakeMove(g, i))
  {
    if Accepts(g, i) {
      var p := g.current;
      var r := MakeMove(g, i);
      PlaceUsesEmpty(g.board, i, p);
      assert Other(Other(p)) == p;
      if r.over {
        forall k | 0 <= k < 8 ensures !CompleteFor(r.board, k, Other(p)) {
          if CompleteFor(r.board, k, Other(p)) {
            NewLineRunsThrough(g.board, i, p, Other(p), k);
            assert Complete(g.board, k);
            assert false;
          }
        }
      }
    }
  }

  /** The state after playing the cells of `moves` in order; rejected moves change nothing. */
  function Play(g: Game, moves: seq<Index>): Game
    decreases |moves|
  {
    if |moves| == 0 then g else Play(MakeMove(g, moves[0]), moves[1..])
  }

  /** Every state reached from a fresh game by any sequence of moves is consistent. */
  lemma {:induction false} PlayFromResetConsistent(g: Game, moves: seq<Index>)
    ensures Consistent(Play(Reset(g), moves))
  {
    ResetConsistent(g, g.vsAI);
    PlayPreservesConsistent(Reset(g), moves);
  }

  lemma {:induction false} PlayPreservesConsistent(g: Game, moves: seq<Index>)
    requires Consistent(g)
    ensures Consistent(Play(g, moves))
    decreases |moves|
  {
    if |moves| > 0 {
      MakeMovePreservesConsistent(g, moves[0]);
      PlayPreservesConsistent(MakeMove(g, moves[0]), moves[1..]);
    }
  }

  /** A finished game stays finished and unchanged whatever is played on it. */
  lemma {:induction false} OverIsFinal(g: Game, moves: seq<Index>)
    requires g.over
    ensures Play(g, moves) == g
    decreases |moves|
  {
    if |moves| > 0 {
      OverIsFinal(MakeMove(g, moves[0]), moves[1..]);
    }
  }

  /**
    In a consistent state a reported winner is the player who moved last, and no
    win is reported before five marks are on the board.
   */
  lemma WinnerMovedLast(g: Game)
    requires Consistent(g)
    requires CheckWinner(g.board).Some? && CheckWinner(g.board).value.Won?
    ensures CheckWinner(g.board).value.winner == g.current
    ensures XCount(g) + OCount(g) >= 5
  {
    var w := CheckWinner(g.board).value;
    assert !CompleteFor(g.board, w.line, Other(g.current));
    LineNeedsThreeMarks(g.board, w.line, w.winner);
  }

  /** A drawn game holds five X and four O, so X made its last move. */
  lemma DrawnGameEndsOnX(g: Game)
    requires Consistent(g)
    requires CheckWinner(g.board) == Some(Drawn)
    ensures XCount(g) == 5 && OCount(g) == 4
    ensures g.current == X
  {
    CountUniform(g.board, Empty);
    CountPartition(g.board);
  }

  /** In a consistent state the two players never both own a line. */
  lemma NoDoubleWinner(g: Game, k1: int, k2: int)
    requires Consistent(g)
    requires 0 <= k1 < 8 && 0 <= k2 < 8
    ensures CompleteFor(g.board, k1, X) ==> !CompleteFor(g.board, k2, O)
  {
    if CompleteFor(g.board, k1, X) {
      assert Complete(g.board, k1);
      assert !CompleteFor(g.board, k1, Other(g.current));
      assert !CompleteFor(g.board, k2, Other(g.current));
    }
  }
}
