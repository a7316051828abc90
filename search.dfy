/** The exhaustive game-tree search behind the Hard opponent: `minimax`, and the
    trial loop of `hardAiMove` that picks the move. "o" maximises, "x" minimises. */
module Search {
  import opened Board

  /** Integer stand-ins for the source's `-Infinity` and `Infinity`; every real
      score lies strictly between them. */
  const NegInf := -11
  const PosInf := 11

  /** The mark the side to move places: "o" when maximising, "x" otherwise. */
  function MarkFor(maximising: bool): Cell
  {
    if maximising then O else X
  }

  /** The `scores` table of `minimax`: o wins 10, x wins -10, a draw 0. */
  function TerminalScore(s: Status): int
    requires s != Ongoing
  {
    match s
    case Won(w) => if w == O then 10 else -10
    case Drawn => 0
  }

  /** `Math.max` when maximising, `Math.min` otherwise. */
  function Combine(maximising: bool, score: int, best: int): int
  {
    if maximising then (if score > best then score else best)
    else (if score < best then score else best)
  }

  /** `r` is at least as good as `x` for the side that maximises (or minimises). */
  predicate Dominates(maximising: bool, r: int, x: int)
  {
    if maximising then x <= r else r <= x
  }

  predicate IsOutcomeScore(v: int)
  {
    v == -10 || v == 0 || v == 10
  }

  /** The value `minimax(board, _, maximising)` returns, as a function of the board. */
  function Score(b: seq<Cell>, maximising: bool): int
    requires |b| == 9
    decreases Count(b, Empty), 1, 0
  {
    var result := CheckWin(b);
    if result != Ongoing then TerminalScore(result)
    else ScoreFrom(b, maximising, 0, if maximising then NegInf else PosInf)
  }

  /** The `for` loop of `minimax` from cell `i` on, with `best` the score so far. */
  function ScoreFrom(b: seq<Cell>, maximising: bool, i: nat, best: int): int
    requires |b| == 9 && i <= 9
    decreases Count(b, Empty), 0, 9 - i
  {
    if i == 9 then best
    else if b[i] == Empty then
      CountUpdate(b, i, MarkFor(maximising), Empty);
      var score := Score(b[i := MarkFor(maximising)], !maximising);
      ScoreFrom(b, maximising, i + 1, Combine(maximising, score, best))
    else ScoreFrom(b, maximising, i + 1, best)
  }

  /** The score of the child reached by marking empty cell `j`. */
  function Child(b: seq<Cell>, maximising: bool, j: Index): int
    requires |b| == 9 && b[j] == Empty
  {
    Score(b[j := MarkFor(maximising)], !maximising)
  }

  /** What the loop from `i` on yields: no worse than `best` and than every child
      at or after `i`, and equal to `best` or to one of those children. */
  lemma {:induction false} ScoreFromIsBest(b: seq<Cell>, maximising: bool, i: nat, best: int)
    requires |b| == 9 && i <= 9
    ensures Dominates(maximising, ScoreFrom(b, maximising, i, best), best)
    ensures forall j: Index :: i <= j && b[j] == Empty ==>
              Dominates(maximising, ScoreFrom(b, maximising, i, best), Child(b, maximising, j))
    ensures ScoreFrom(b, maximising, i, best) == best ||
            exists j: Index :: i <= j && b[j] == Empty && ScoreFrom(b, maximising, i, best) == Child(b, maximising, j)
    decreases 9 - i
  {
    if i < 9 {
      if b[i] == Empty {
        ScoreFromIsBest(b, maximising, i + 1, Combine(maximising, Child(b, maximising, i), best));
      } else {
        ScoreFromIsBest(b, maximising, i + 1, best);
      }
    }
  }

  /** Every score `minimax` returns is 10, 0 or -10: a sentinel never escapes. */
  lemma {:induction false} ScoreInRange(b: seq<Cell>, maximising: bool)
    requires |b| == 9
    ensures IsOutcomeScore(Score(b, maximising))
    decreases Count(b, Empty)
  {
    if CheckWin(b) == Ongoing {
      CheckWinSpec(b);
      var sentinel := if maximising then NegInf else PosInf;
      forall j: Index | b[j] == Empty
        ensures IsOutcomeScore(Child(b, maximising, j))
      {
        CountUpdate(b, j, MarkFor(maximising), Empty);
        ScoreInRange(b[j := MarkFor(maximising)], !maximising);
      }
      ScoreFromIsBest(b, maximising, 0, sentinel);
      var j :| 0 <= j < 9 && b[j] == Empty;
      assert Dominates(maximising, Score(b, maximising), Child(b, maximising, j));
    }
  }

  /** The minimax recurrence: a decided board scores 10 / -10 / 0 for an o win,
      an x win or a draw; an undecided one scores the best of its children for
      the side to move, and some child attains it. */
  lemma ScoreIsMinimax(b: seq<Cell>, maximising: bool)
    requires |b| == 9
    ensures CheckWin(b) == Won(O) ==> Score(b, maximising) == 10
    ensures CheckWin(b) == Won(X) ==> Score(b, maximising) == -10
    ensures CheckWin(b) == Drawn ==> Score(b, maximising) == 0
    ensures CheckWin(b) == Ongoing ==>
              (forall j: Index :: b[j] == Empty ==> Dominates(maximising, Score(b, maximising), Child(b, maximising, j))) &&
              (exists j: Index :: b[j] == Empty && Score(b, maximising) == Child(b, maximising, j))
  {
    if CheckWin(b) == Ongoing {
      ScoreFromIsBest(b, maximising, 0, if maximising then NegInf else PosInf);
      ScoreInRange(b, maximising);
    }
  }

  /** `minimax`: places each candidate mark, recurses, and undoes the placement.
      It returns the game-tree value of the board and leaves every cell as it was. */
  method Minimax(board: array<Cell>, maximising: bool) returns (bestScore: int)
    requires board.Length == 9
    modifies board
    ensures board[..] == old(board[..])
    ensures bestScore == Score(old(board[..]), maximising)
    decreases Count(board[..], Empty)
  {
    var result := CheckWin(board[..]);
    if result != Ongoing {
      return TerminalScore(result);
    }
    ghost var b := board[..];
    bestScore := if maximising then NegInf else PosInf;
    for i := 0 to 9
      invariant board[..] == b
      invariant ScoreFrom(b, maximising, i, bestScore) == Score(b, maximising)
    {
      if board[i] == Empty {
        board[i] := MarkFor(maximising);
        assert board[..] == b[i := MarkFor(maximising)];
        CountUpdate(b, i, MarkFor(maximising), Empty);
        var score := Minimax(board, !maximising);
        board[i] := Empty;
        assert board[..] == b;
        bestScore := Combine(maximising, score, bestScore);
      }
    }
  }

  /** The trial loop of `hardAiMove` from cell `i` on: `bestScore` and `move` are
      the best score and move so far; a later cell replaces them only when it
      scores strictly more. */
  function BestMoveFrom(b: seq<Cell>, i: nat, bestScore: int, move: Option<Index>): (r: Option<Index>)
    requires |b| == 9 && i <= 9
    requires move.Some? ==> b[move.value] == Empty
    ensures r.Some? ==> b[r.value] == Empty
    ensures r.None? ==> move.None?
    decreases 9 - i
  {
    if i == 9 then move
    else if b[i] == Empty then
      var score := Child(b, true, i);
      if score > bestScore then BestMoveFrom(b, i + 1, score, Some(i))
      else BestMoveFrom(b, i + 1, bestScore, move)
    else BestMoveFrom(b, i + 1, bestScore, move)
  }

  /** The move `hardAiMove` makes for "o", or none on a full board. */
  function BestMove(b: seq<Cell>): (r: Option<Index>)
    requires |b| == 9
    ensures r.Some? ==> b[r.value] == Empty
  {
    BestMoveFrom(b, 0, NegInf, None)
  }

  /** `k` is the lowest empty cell whose trial score is the greatest over all empty cells. */
  predicate IsFirstBest(b: seq<Cell>, k: Index)
    requires |b| == 9
  {
    b[k] == Empty &&
    (forall j: Index :: b[j] == Empty ==> Child(b, true, j) <= Child(b, true, k)) &&
    (forall j: Index :: j < k && b[j] == Empty ==> Child(b, true, j) < Child(b, true, k))
  }

  /** The state of the trial loop before cell `i`: no move while no empty cell was
      seen, else the first best trial among the cells before `i`. */
  predicate TrialLoopState(b: seq<Cell>, i: nat, bestScore: int, move: Option<Index>)
    requires |b| == 9 && i <= 9
  {
    match move
    case None => bestScore == NegInf && forall j: Index :: j < i ==> b[j] != Empty
    case Some(k) =>
      k < i && b[k] == Empty && bestScore == Child(b, true, k) &&
      (forall j: Index :: j < i && b[j] == Empty ==> Child(b, true, j) <= Child(b, true, k)) &&
      (forall j: Index :: j < k && b[j] == Empty ==> Child(b, true, j) < Child(b, true, k))
  }

  lemma {:induction false} BestMoveFromIsFirstBest(b: seq<Cell>, i: nat, bestScore: int, move: Option<Index>)
    requires |b| == 9 && i <= 9
    requires TrialLoopState(b, i, bestScore, move)
    ensures BestMoveFrom(b, i, bestScore, move) == None <==> move == None && forall j: Index :: i <= j ==> b[j] != Empty
    ensures BestMoveFrom(b, i, bestScore, move).Some? ==> IsFirstBest(b, BestMoveFrom(b, i, bestScore, move).value)
    decreases 9 - i
  {
    if i < 9 {
      if b[i] == Empty {
        var score := Child(b, true, i);
        ScoreInRange(b[i := O], false);
        if score > bestScore {
          BestMoveFromIsFirstBest(b, i + 1, score, Some(i));
        } else {
          BestMoveFromIsFirstBest(b, i + 1, bestScore, move);
        }
      } else {
        BestMoveFromIsFirstBest(b, i + 1, bestScore, move);
      }
    }
  }

  /** `hardAiMove` chooses exactly the lowest empty cell with the greatest trial
      score, and makes no move exactly when no cell is empty. */
  lemma BestMoveIsFirstBest(b: seq<Cell>)
    requires |b| == 9
    ensures BestMove(b) == None <==> Empty !in b
    ensures forall k: Index :: BestMove(b) == Some(k) <==> IsFirstBest(b, k)
  {
    BestMoveFromIsFirstBest(b, 0, NegInf, None);
    forall k: Index | IsFirstBest(b, k)
      ensures BestMove(b) == Some(k)
    {
      var m := BestMove(b);
      assert m.Some? && IsFirstBest(b, m.value);
    }
  }

  /** On an undecided board the Hard move attains the minimax value of the board for "o". */
  lemma BestMoveIsOptimal(b: seq<Cell>)
    requires |b| == 9 && CheckWin(b) == Ongoing
    ensures BestMove(b).Some? && IsFirstBest(b, BestMove(b).value)
    ensures Child(b, true, BestMove(b).value) == Score(b, true)
  {
    BestMoveIsFirstBest(b);
    ScoreIsMinimax(b, true);
    FirstBestAttains(b, BestMove(b).value, Score(b, true));
  }

  /** A first-best cell attains any value that bounds every trial and is attained by one. */
  lemma FirstBestAttains(b: seq<Cell>, k: Index, v: int)
    requires |b| == 9 && IsFirstBest(b, k)
    requires forall j: Index :: b[j] == Empty ==> Dominates(true, v, Child(b, true, j))
    requires exists j: Index :: b[j] == Empty && v == Child(b, true, j)
    ensures Child(b, true, k) == v
  {
    assert Dominates(true, v, Child(b, true, k));
  }

  /** The board of the threat scenario: x holds 1, 5, 6, 7 and o holds 2, 3, 4;
      only cells 0 and 8 are empty, and x completes the bottom row at 8 unless
      o takes it. */
  const Threat: seq<Cell> := [Empty, X, O, O, O, X, X, X, Empty]

  /** On the threat board, "o" at 0 lets "x" complete the bottom row: score -10. */
  lemma ThreatIgnored()
    ensures Child(Threat, true, 0) == -10
  {
    var b0 := Threat[0 := O];
    var b08 := b0[8 := X];
    assert LineWins(b08, 2);
    CheckWinSpec(b08);
    ScoreIsMinimax(b08, true);
    assert NoLineWins(b0);
    CheckWinSpec(b0);
    ScoreIsMinimax(b0, false);
  }

  /** On the threat board, "o" at 8 blocks and the game ends drawn: score 0. */
  lemma ThreatBlocked()
    ensures Child(Threat, true, 8) == 0
  {
    var b8 := Threat[8 := O];
    var b80 := b8[0 := X];
    assert NoLineWins(b80);
    CheckWinSpec(b80);
    ScoreIsMinimax(b80, true);
    assert NoLineWins(b8);
    CheckWinSpec(b8);
    ScoreIsMinimax(b8, false);
  }

  /** The Hard opponent blocks the threat at 8, although the lower empty cell 0
      comes first in the trial loop. */
  lemma HardBlocksThreat()
    ensures BestMove(Threat) == Some(8)
  {
    ThreatIgnored();
    ThreatBlocked();
    assert IsFirstBest(Threat, 8);
    BestMoveIsFirstBest(Threat);
  }
}
