/** The 3x3 board of the game and the win/draw detector `checkWin`.
    Cells are stored row-major: index = row * 3 + col. */
module Board {

  /** One cell: the source's "" / "x" / "o". */
  datatype Cell = Empty | X | O

  /** What `checkWin` reports: `null` (game goes on), a winning mark, or "draw". */
  datatype Status = Ongoing | Won(winner: Cell) | Drawn

  datatype Option<T> = None | Some(value: T)

  /** A valid cell index. */
  type Index = i: int | 0 <= i < 9

  /** The eight winning triples, in the order `checkWin` tries them:
      three rows, three columns, two diagonals. */
  const WinPatterns: seq<(Index, Index, Index)> :=
    [(0, 1, 2), (3, 4, 5), (6, 7, 8), (0, 3, 6), (1, 4, 7), (2, 5, 8), (0, 4, 8), (2, 4, 6)]

  /** Triple `k` is non-empty and holds one mark three times. */
  predicate LineWins(b: seq<Cell>, k: nat)
    requires |b| == 9 && k < |WinPatterns|
  {
    var (p, q, r) := WinPatterns[k];
    b[p] != Empty && b[p] == b[q] && b[p] == b[r]
  }

  predicate NoLineWins(b: seq<Cell>)
    requires |b| == 9
  {
    forall k :: 0 <= k < |WinPatterns| ==> !LineWins(b, k)
  }

  /** Triple `k` wins and no triple listed before it does. */
  predicate IsFirstWinningLine(b: seq<Cell>, k: nat)
    requires |b| == 9
  {
    k < |WinPatterns| && LineWins(b, k) && forall j :: 0 <= j < k ==> !LineWins(b, j)
  }

  /** The loop of `checkWin` over the patterns from position `k` on:
      the first winning triple at or after `k`, if any. */
  function FirstWin(b: seq<Cell>, k: nat): (r: Option<nat>)
    requires |b| == 9 && k <= |WinPatterns|
    ensures r.Some? ==> k <= r.value < |WinPatterns| && LineWins(b, r.value)
    decreases |WinPatterns| - k
  {
    if k == |WinPatterns| then None
    else if LineWins(b, k) then Some(k)
    else FirstWin(b, k + 1)
  }

  /** The loop returns the first winning triple at or after `k`, and none only
      when no triple from `k` on wins. */
  lemma {:induction false} FirstWinIsFirst(b: seq<Cell>, k: nat)
    requires |b| == 9 && k <= |WinPatterns|
    ensures var r := FirstWin(b, k);
      (r.Some? ==> k <= r.value < |WinPatterns| && LineWins(b, r.value) &&
                   forall j :: k <= j < r.value ==> !LineWins(b, j)) &&
      (r.None? ==> forall j :: k <= j < |WinPatterns| ==> !LineWins(b, j))
    decreases |WinPatterns| - k
  {
    if k < |WinPatterns| && !LineWins(b, k) {
      FirstWinIsFirst(b, k + 1);
    }
  }

  /** `checkWin`: the mark of the first winning triple; otherwise "draw" on a
      full board and `null` while some cell is empty. */
  function CheckWin(b: seq<Cell>): (r: Status)
    requires |b| == 9
    ensures r.Won? ==> r.winner != Empty
    ensures r == Drawn ==> Empty !in b
    ensures r == Ongoing ==> Empty in b
  {
    match FirstWin(b, 0)
    case Some(k) => Won(b[WinPatterns[k].0])
    case None => if Empty in b then Ongoing else Drawn
  }

  /** What `checkWin` reports, in terms of the triples: a winner exactly when
      some triple wins, and then the mark of the first one in the list; a draw
      exactly when no triple wins and no cell is empty, so a full board with a
      winning triple reports the winner; `null` when no triple wins and a cell
      is empty. */
  lemma CheckWinSpec(b: seq<Cell>)
    requires |b| == 9
    ensures CheckWin(b).Won? <==> exists k :: 0 <= k < |WinPatterns| && LineWins(b, k)
    ensures CheckWin(b).Won? ==> CheckWin(b).winner != Empty
    ensures forall k: nat :: IsFirstWinningLine(b, k) ==> CheckWin(b) == Won(b[WinPatterns[k].0])
    ensures CheckWin(b) == Drawn <==> NoLineWins(b) && Empty !in b
    ensures CheckWin(b) == Ongoing <==> NoLineWins(b) && Empty in b
  {
    FirstWinIsFirst(b, 0);
  }

  /** The `null` case of `checkWin` alone: no triple wins and a cell is empty.
      The same fact as the last clause of `CheckWinSpec`, kept on its own so that
      proofs needing only this case do not pay for the whole characterisation. */
  lemma OngoingExactly(b: seq<Cell>)
    requires |b| == 9
    ensures CheckWin(b) == Ongoing <==> NoLineWins(b) && Empty in b
  {
    FirstWinIsFirst(b, 0);
  }

  /** How many cells hold `c`. */
  function Count(b: seq<Cell>, c: Cell): nat
  {
    if b == [] then 0 else (if b[0] == c then 1 else 0) + Count(b[1..], c)
  }

  /** Overwriting one cell moves one unit of count from its old content to the new one. */
  lemma {:induction false} CountUpdate(b: seq<Cell>, i: nat, v: Cell, c: Cell)
    requires i < |b|
    ensures Count(b[i := v], c) == Count(b, c) - (if b[i] == c then 1 else 0) + (if v == c then 1 else 0)
  {
    if i == 0 {
      assert b[i := v][1..] == b[1..];
    } else {
      assert b[i := v][1..] == b[1..][i - 1 := v];
      CountUpdate(b[1..], i - 1, v, c);
    }
  }

  /** A mark that appears nowhere is counted zero times. */
  lemma {:induction false} CountAbsent(b: seq<Cell>, c: Cell)
    requires forall i :: 0 <= i < |b| ==> b[i] != c
    ensures Count(b, c) == 0
  {
    if b != [] {
      CountAbsent(b[1..], c);
    }
  }

  /** The mapped-and-filtered list of empty indices from position `i` on. */
  function EmptyCellsFrom(b: seq<Cell>, i: nat): (e: seq<nat>)
    requires i <= |b|
    ensures forall j :: j in e <==> i <= j < |b| && b[j] == Empty
    ensures forall p, q :: 0 <= p < q < |e| ==> e[p] < e[q]
    decreases |b| - i
  {
    if i == |b| then []
    else
      var rest := EmptyCellsFrom(b, i + 1);
      assert forall q :: 0 <= q < |rest| ==> rest[q] in rest;
      if b[i] == Empty then [i] + rest else rest
  }

  /** `emptyBoxes` of `easyAiMove`: the indices of the empty cells, ascending. */
  function EmptyCells(b: seq<Cell>): (e: seq<nat>)
    ensures forall j :: j in e <==> 0 <= j < |b| && b[j] == Empty
    ensures forall p, q :: 0 <= p < q < |e| ==> e[p] < e[q]
    ensures |e| == 0 <==> Empty !in b
  {
    var e := EmptyCellsFrom(b, 0);
    assert |e| > 0 ==> e[0] in e;
    e
  }

  /** The mark a human move places: "x" on an even move count, "o" on an odd one. */
  function Turn(count: nat): (c: Cell)
    ensures c != Empty
    ensures c == X <==> count % 2 == 0
  {
    if count % 2 == 0 then X else O
  }

  /** A decided board stays decided when a mark fills one of its empty cells. */
  lemma StaysDecided(b: seq<Cell>, i: Index, c: Cell)
    requires |b| == 9 && b[i] == Empty && c != Empty
    requires CheckWin(b) != Ongoing
    ensures CheckWin(b[i := c]) != Ongoing
  {
    OngoingExactly(b);
    assert b[i] in b;
    var k :| 0 <= k < |WinPatterns| && LineWins(b, k);
    assert LineWins(b[i := c], k);
    OngoingExactly(b[i := c]);
  }

  /** The empty board is undecided. */
  lemma EmptyBoardOngoing()
    ensures CheckWin(seq(9, _ => Empty)) == Ongoing
  {
    var b: seq<Cell> := seq(9, _ => Empty);
    assert b[0] == Empty;
    CheckWinSpec(b);
  }

  /** With the marks balanced (x moves first), the move count's parity says whose turn it is. */
  lemma TurnFollowsMarks(b: seq<Cell>, count: nat)
    requires count == Count(b, X) + Count(b, O)
    requires Count(b, X) == Count(b, O) || Count(b, X) == Count(b, O) + 1
    ensures Turn(count) == X <==> Count(b, X) == Count(b, O)
  {
  }

  /** Any board with x on the main diagonal reports x as the winner, whatever
      else it holds: every triple tried before the diagonal meets cell 0, 4 or 8,
      so a triple that wins earlier is an x triple too. */
  lemma DiagonalWinForX(b: seq<Cell>)
    requires |b| == 9 && b[0] == X && b[4] == X && b[8] == X
    ensures CheckWin(b) == Won(X)
  {
    assert LineWins(b, 6);
    FirstWinIsFirst(b, 0);
  }

  /** A full board without a winning triple is a draw. */
  lemma FullBoardDraw()
    ensures CheckWin([X, O, X, X, O, O, O, X, X]) == Drawn
  {
    var b := [X, O, X, X, O, O, O, X, X];
    assert forall k :: 0 <= k < |WinPatterns| ==> !LineWins(b, k);
    CheckWinSpec(b);
  }

  /** A full board that holds a winning triple reports the winner, not a draw. */
  lemma FullBoardWin()
    ensures CheckWin([O, X, X, X, O, O, X, X, O]) == Won(O)
  {
    var b := [O, X, X, X, O, O, X, X, O];
    assert IsFirstWinningLine(b, 6);
    CheckWinSpec(b);
  }
}
