/**
  The search that plays O: exhaustive minimax with no pruning and no depth
  adjustment. O maximises, X minimises; a win for O scores 1, a win for X
  scores -1 and a draw 0.

  `Minimax` and `FindBestMove` work on board values, so a trial placement
  can never leak into the caller's board. `MinimaxInPlace` and
  `FindBestMoveInPlace` follow the place-then-undo discipline of script.js
  on one shared array and prove that the array comes back as it was.
 */
module AIAgent {
  import opened WinCheck
  import opened GameState

  /** A running best score: JavaScript's -Infinity, +Infinity or a finite score. */
  datatype Bound = NegInf | PosInf | Fin(v: int)

  /** The player who moves at a search level. */
  function Mover(maximizing: bool): Player {
    if maximizing then O else X
  }

  /** The score of a finished position. */
  function Score(o: Outcome): int {
    match o
    case Won(O, _) => 1
    case Won(X, _) => -1
    case Drawn => 0
  }

  /** The starting value of the running best: -Infinity for O, +Infinity for X. */
  function Start(maximizing: bool): Bound {
    if maximizing then NegInf else PosInf
  }

  /**
    Folds a reply's score into the running best: the larger of the two for O,
    the smaller for X. The mover's own starting infinity gives way to any
    score; the opposite infinity is kept.
   */
  function Combine(maximizing: bool, score: int, best: Bound): Bound {
    match best
    case Fin(v) => Fin(if maximizing then (if score > v then score else v)
                          else (if score < v then score else v))
    case NegInf => if maximizing then Fin(score) else NegInf
    case PosInf => if maximizing then PosInf else Fin(score)
  }

  /** `best` is the initial infinity of its level or a score the search can return. */
  predicate InRange(maximizing: bool, best: Bound) {
    best == Start(maximizing) || (best.Fin? && -1 <= best.v <= 1)
  }

  /** Either the first score is preferred by the mover or the two are equal. */
  predicate AtLeastAsGood(maximizing: bool, a: int, b: int) {
    if maximizing then a >= b else a <= b
  }

  /**
    The value of a position with the given player to move. A finished position
    scores its outcome; otherwise the mover tries every empty cell in ascending
    order and keeps the best score of the replies.
   */
  function Minimax(b: Board, maximizing: bool): (r: int)
    ensures -1 <= r <= 1
    ensures CheckWinner(b) == Some(Drawn) ==> r == 0
    ensures CheckWinner(b).Some? && CheckWinner(b).value.Won? ==>
              r == (if CheckWinner(b).value.winner == O then 1 else -1)
    decreases Empties(b), 10
  {
    match CheckWinner(b)
    case Some(o) => Score(o)
    case None => Scan(b, maximizing, 0, Start(maximizing)).v
  }

  /** The score of the reply in which the mover takes cell `j`. */
  function ChildScore(b: Board, maximizing: bool, j: Index): int
    requires b[j] == Empty
  {
    Minimax(b[j := Mark(Mover(maximizing))], !maximizing)
  }

  /**
    The loop of a search level over cells `i..8`, starting from the running
    best `best`. It stays within the scores and only ends at an infinity when
    it started at one and met no empty cell.
   */
  function Scan(b: Board, maximizing: bool, i: nat, best: Bound): (r: Bound)
    requires i <= 9
    requires InRange(maximizing, best)
    ensures InRange(maximizing, r)
    ensures r == Start(maximizing) ==>
              best == Start(maximizing) && forall j :: i <= j < 9 ==> b[j] != Empty
    decreases Empties(b), 9 - i
  {
    if i == 9 then best
    else if b[i] == Empty then
      PlaceUsesEmpty(b, i, Mover(maximizing));
      var score := Minimax(b[i := Mark(Mover(maximizing))], !maximizing);
      Scan(b, maximizing, i + 1, Combine(maximizing, score, best))
    else Scan(b, maximizing, i + 1, best)
  }

  /**
    The loop keeps the best of what it started with and of every reply on the
    cells it visits, and its result is one of those.
   */
  lemma {:induction false} ScanIsBest(b: Board, maximizing: bool, i: nat, best: Bound)
    requires i <= 9
    requires InRange(maximizing, best)
    ensures var r := Scan(b, maximizing, i, best);
      && (best.Fin? ==> r.Fin? && AtLeastAsGood(maximizing, r.v, best.v))
      && (forall j :: i <= j < 9 && b[j] == Empty ==>
            r.Fin? && AtLeastAsGood(maximizing, r.v, ChildScore(b, maximizing, j)))
      && (r == best || exists j :: i <= j < 9 && b[j] == Empty && r == Fin(ChildScore(b, maximizing, j)))
    decreases 9 - i
  {
    if i < 9 {
      if b[i] == Empty {
        var score := ChildScore(b, maximizing, i);
        ScanIsBest(b, maximizing, i + 1, Combine(maximizing, score, best));
      } else {
        ScanIsBest(b, maximizing, i + 1, best);
      }
    }
  }

  /**
    On a position the scan leaves undecided, the value is at least as good for
    the mover as every reply: no smaller than any O placement when maximising,
    no larger than any X placement otherwise.
   */
  lemma ValueBoundsReplies(b: Board, maximizing: bool)
    requires CheckWinner(b).None?
    ensures forall i {:trigger ChildScore(b, maximizing, i)} :: 0 <= i < 9 && b[i] == Empty ==>
              AtLeastAsGood(maximizing, Minimax(b, maximizing), ChildScore(b, maximizing, i))
  {
    ScanIsBest(b, maximizing, 0, Start(maximizing));
  }

  /**
    On a position the scan leaves undecided, the value is the score of some
    reply: `j` is an empty cell whose reply attains it. With the lemma above,
    the value is the maximum, or the minimum, over the replies.
   */
  lemma ValueIsAttained(b: Board, maximizing: bool) returns (j: Index)
    requires CheckWinner(b).None?
    ensures b[j] == Empty && Minimax(b, maximizing) == ChildScore(b, maximizing, j)
  {
    ScanIsBest(b, maximizing, 0, Start(maximizing));
    j :| 0 <= j < 9 && b[j] == Empty && Minimax(b, maximizing) == ChildScore(b, maximizing, j);
  }

  /**
    Cell `k` is what the search chooses for O: an empty cell whose reply score
    is the highest, and the first such cell in ascending order.
   */
  ghost predicate IsBestMove(b: Board, k: int) {
    && 0 <= k < 9
    && b[k] == Empty
    && (forall j {:trigger ChildScore(b, true, j)} ::
          0 <= j < 9 && b[j] == Empty ==> ChildScore(b, true, j) <= ChildScore(b, true, k))
    && (forall j {:trigger ChildScore(b, true, j)} ::
          0 <= j < k && b[j] == Empty ==> ChildScore(b, true, j) < ChildScore(b, true, k))
  }

  /** At most one cell is the best move. */
  lemma BestMoveUnique(b: Board, k1: int, k2: int)
    requires IsBestMove(b, k1) && IsBestMove(b, k2)
    ensures k1 == k2
  {
    // Each is at least as good as the other, and the later one would have to be strictly better.
    var s1, s2 := ChildScore(b, true, k1), ChildScore(b, true, k2);
  }

  /** The score is strictly above the running best; every score is above -Infinity and none above +Infinity. */
  predicate Beats(score: int, best: Bound) {
    match best
    case NegInf => true
    case PosInf => false
    case Fin(v) => score > v
  }

  /**
    The search's choice for O: -1 when no cell is empty, and otherwise the best
    move, found by trying O on each empty cell in ascending order and keeping a
    strictly higher score only.
   */
  method FindBestMove(b: Board) returns (k: int)
    ensures k == -1 <==> Full(b)
    ensures k != -1 ==> IsBestMove(b, k)
  {
    var best := NegInf;
    k := -1;
    for i := 0 to 9
      invariant k == -1 ==> best == NegInf && forall j :: 0 <= j < i ==> b[j] != Empty
      invariant k != -1 ==> 0 <= k < i && b[k] == Empty && best == Fin(ChildScore(b, true, k))
      invariant k != -1 ==> forall j :: 0 <= j < i && b[j] == Empty ==> ChildScore(b, true, j) <= best.v
      invariant k != -1 ==> forall j :: 0 <= j < k && b[j] == Empty ==> ChildScore(b, true, j) < best.v
    {
      if b[i] == Empty {
        var score := ChildScore(b, true, i);
        if Beats(score, best) {
          best := Fin(score);
          k := i;
        }
      }
    }
  }

  /**
    The search's move on the live game: no change when the board is full,
    otherwise the ordinary move on the chosen cell `k`, which still rejects it if
    the game is already over.
   */
  method MakeAIMove(g: Game) returns (k: int, r: Game)
    ensures k == -1 <==> Full(g.board)
    ensures k == -1 ==> r == g
    ensures k != -1 ==> IsBestMove(g.board, k) && r == MakeMove(g, k)
    ensures Consistent(g) ==> Consistent(r)
  {
    k := FindBestMove(g.board);
    if k != -1 {
      r := MakeMove(g, k);
      if Consistent(g) {
        MakeMovePreservesConsistent(g, k);
      }
    } else {
      r := g;
    }
  }

  /**
    A human move followed, when it is scheduled, by the search's reply (the
    500 ms delay is not modelled). `k` is the cell the search plays, or -1 when
    no reply is scheduled. A scheduled reply always passes the `bestMove !== -1`
    guard and places an O on an empty cell of a running game.
   */
  method MoveWithReply(g: Game, i: Index) returns (k: int, r: Game)
    ensures !SchedulesAIMove(g, i) ==> k == -1 && r == MakeMove(g, i)
    ensures SchedulesAIMove(g, i) ==>
              && k != -1
              && IsBestMove(MakeMove(g, i).board, k)
              && Accepts(MakeMove(g, i), k)
              && r == MakeMove(MakeMove(g, i), k)
              && r.board[k] == Mark(O)
    ensures Consistent(g) ==> Consistent(r)
  {
    var n := MakeMove(g, i);
    if Consistent(g) {
      MakeMovePreservesConsistent(g, i);
    }
    if SchedulesAIMove(g, i) {
      k, r := MakeAIMove(n);
    } else {
      k, r := -1, n;
    }
  }

  /**
    When O can complete a line at once on an undecided board, the chosen move
    scores a win for O.
   */
  lemma ChoiceWinsWhenWinAvailable(b: Board, w: Index, line: int, k: int)
    requires CheckWinner(b).None?
    requires b[w] == Empty && 0 <= line < 8 && CompleteFor(b[w := Mark(O)], line, O)
    requires IsBestMove(b, k)
    ensures ChildScore(b, true, k) == 1
  {
    var c := b[w := Mark(O)];
    assert Complete(c, line);
    var o := CheckWinner(c).value;
    NewLineRunsThrough(b, w, O, o.winner, o.line);
    assert ChildScore(b, true, w) == 1;
  }

  /**
    A cell where X would complete a line is a threat: on an undecided board,
    every other O placement that does not win at once loses, because X then
    takes the threat cell.
   */
  lemma ThreatMustBeBlocked(b: Board, t: Index, line: int, j: Index)
    requires CheckWinner(b).None?
    requires b[t] == Empty && 0 <= line < 8 && CompleteFor(b[t := Mark(X)], line, X)
    requires j != t && b[j] == Empty && NoLine(b[j := Mark(O)])
    ensures ChildScore(b, true, j) == -1
  {
    var c := b[j := Mark(O)];
    assert c[t] == Empty;
    assert CompleteFor(c[t := Mark(X)], line, X) by {
      var (x, y, z) := Lines[line];
      assert x != j && y != j && z != j;
    }
    XTakesThreat(c, t, line);
    ValueBoundsReplies(c, false);
    assert ChildScore(c, false, t) == -1;
  }

  /** On a board with no line, X completing a line ends the game as a win for X. */
  lemma XTakesThreat(c: Board, t: Index, line: int)
    requires NoLine(c) && c[t] == Empty
    requires 0 <= line < 8 && CompleteFor(c[t := Mark(X)], line, X)
    ensures Minimax(c[t := Mark(X)], true) == -1
  {
    var d := c[t := Mark(X)];
    assert Complete(d, line);
    var o := CheckWinner(d).value;
    NewLineRunsThrough(c, t, X, o.winner, o.line);
    assert !Complete(c, o.line);
  }

  /**
    X holds cells 0 and 1 and O holds cell 3: the search blocks the top row on
    cell 2.
   */
  lemma BlocksOpenRow()
    ensures IsBestMove([Mark(X), Mark(X), Empty, Mark(O), Empty, Empty, Empty, Empty, Empty], 2)
  {
    var b: Board := [Mark(X), Mark(X), Empty, Mark(O), Empty, Empty, Empty, Empty, Empty];
    assert CheckWinner(b).None? by {
      assert b[2] == Empty;
      forall k | 0 <= k < 8 ensures !Complete(b, k) {
        assert b[Lines[k].0] == Empty || b[Lines[k].1] == Empty || b[Lines[k].2] == Empty
            || b[Lines[k].0] != b[Lines[k].1] || b[Lines[k].0] != b[Lines[k].2];
      }
    }
    assert CompleteFor(b[2 := Mark(X)], 0, X);
    forall j | 0 <= j < 9 && b[j] == Empty && j != 2 ensures ChildScore(b, true, j) == -1 {
      var c := b[j := Mark(O)];
      forall k | 0 <= k < 8 ensures !Complete(c, k) {
        assert c[Lines[k].0] == Empty || c[Lines[k].1] == Empty || c[Lines[k].2] == Empty
            || c[Lines[k].0] != c[Lines[k].1] || c[Lines[k].0] != c[Lines[k].2];
      }
      ThreatMustBeBlocked(b, 2, 0, j);
    }
  }

  /**
    `Minimax` computed as script.js computes it, on one shared array: each trial mark
    is written, searched below and erased again, so the array ends as it began.
   */
  method MinimaxInPlace(a: array<Cell>, maximizing: bool) returns (s: int)
    requires a.Length == 9
    modifies a
    ensures a[..] == old(a[..])
    ensures s == Minimax(a[..], maximizing)
    decreases Empties(a[..])
  {
    var b: Board := a[..];
    var result := CheckWinner(b);
    if result.Some? {
      return Score(result.value);
    }
    var best := Start(maximizing);
    for i := 0 to 9
      invariant a[..] == b
      invariant InRange(maximizing, best)
      invariant Scan(b, maximizing, i, best) == Scan(b, maximizing, 0, Start(maximizing))
    {
      if a[i] == Empty {
        a[i] := Mark(Mover(maximizing));
        PlaceUsesEmpty(b, i, Mover(maximizing));
        assert a[..] == b[i := Mark(Mover(maximizing))];
        var score := MinimaxInPlace(a, !maximizing);
        a[i] := Empty;
        assert a[..] == b;
        best := Combine(maximizing, score, best);
      }
    }
    s := best.v;
  }

  /** `FindBestMove` as script.js computes it, placing and erasing each trial O on one shared array. */
  method FindBestMoveInPlace(a: array<Cell>) returns (k: int)
    requires a.Length == 9
    modifies a
    ensures a[..] == old(a[..])
    ensures k == -1 <==> Full(a[..])
    ensures k != -1 ==> IsBestMove(a[..], k)
  {
    var b: Board := a[..];
    var best := NegInf;
    k := -1;
    for i := 0 to 9
      invariant a[..] == b
      invariant k == -1 ==> best == NegInf && forall j :: 0 <= j < i ==> b[j] != Empty
      invariant k != -1 ==> 0 <= k < i && b[k] == Empty && best == Fin(ChildScore(b, true, k))
      invariant k != -1 ==> forall j :: 0 <= j < i && b[j] == Empty ==> ChildScore(b, true, j) <= best.v
      invariant k != -1 ==> forall j :: 0 <= j < k && b[j] == Empty ==> ChildScore(b, true, j) < best.v
    {
      if a[i] == Empty {
        a[i] := Mark(O);
        assert a[..] == b[i := Mark(O)];
        var score := MinimaxInPlace(a, false);
        a[i] := Empty;
        assert a[..] == b;
        if Beats(score, best) {
          best := Fin(score);
          k := i;
        }
      }
    }
  }
}
