/** The difficulty setting and the move policies of the computer opponent.
    `Math.random()` is not modelled: each draw it would make is a parameter, a
    real in [0, 1) supplied by the caller. */
module Policy {
  import opened Board
  import opened Search

  datatype Difficulty = Easy | Medium | Hard

  /** `changeDifficulty`: Easy -> Medium -> Hard -> Easy. */
  function NextDifficulty(d: Difficulty): (r: Difficulty)
    ensures r != d
  {
    match d
    case Easy => Medium
    case Medium => Hard
    case Hard => Easy
  }

  /** The rotation is a cycle of length exactly three. */
  lemma DifficultyCycles(d: Difficulty)
    ensures NextDifficulty(NextDifficulty(d)) != d
    ensures NextDifficulty(NextDifficulty(NextDifficulty(d))) == d
  {
  }

  /** `Math.floor(r * n)` for a draw `r` in [0, 1): an index below `n`. */
  function RandomIndex(r: real, n: nat): (i: nat)
    requires 0.0 <= r < 1.0 && n > 0
    ensures i < n
  {
    assert 0.0 <= r * n as real < n as real;
    (r * n as real).Floor
  }

  /** Every index below `n` is drawn by some `r` in [0, 1). */
  lemma RandomIndexReachesAll(i: nat, n: nat)
    requires i < n
    ensures exists r: real :: 0.0 <= r < 1.0 && RandomIndex(r, n) == i
  {
    var r := i as real / n as real;
    assert r * n as real == i as real;
    assert RandomIndex(r, n) == i;
  }

  /** `easyAiMove`'s choice: the empty cell at a random position in the
      ascending list of empty cells, or none on a full board. */
  function EasyChoice(b: seq<Cell>, pick: real): (r: Option<Index>)
    requires |b| == 9 && 0.0 <= pick < 1.0
    ensures r.None? <==> Empty !in b
    ensures r.Some? ==> b[r.value] == Empty
  {
    var empties := EmptyCells(b);
    if |empties| == 0 then None
    else
      var k := empties[RandomIndex(pick, |empties|)];
      assert k in empties;
      Some(k)
  }

  /** Easy can play any empty cell: for each one some draw selects it. */
  lemma EasyReachesEveryEmptyCell(b: seq<Cell>, k: Index)
    requires |b| == 9 && b[k] == Empty
    ensures exists pick: real :: 0.0 <= pick < 1.0 && EasyChoice(b, pick) == Some(k)
  {
    var empties := EmptyCells(b);
    assert k in empties;
    var i :| 0 <= i < |empties| && empties[i] == k;
    RandomIndexReachesAll(i, |empties|);
    var pick :| 0.0 <= pick < 1.0 && RandomIndex(pick, |empties|) == i;
    assert EasyChoice(b, pick) == Some(k);
  }

  /** The computer's move at difficulty `d`: Easy picks at random, Hard runs the
      search, Medium flips a coin (`Math.random() < 0.5`) between the two. */
  function AiChoice(b: seq<Cell>, d: Difficulty, coin: real, pick: real): (r: Option<Index>)
    requires |b| == 9 && 0.0 <= coin < 1.0 && 0.0 <= pick < 1.0
    ensures r.Some? ==> b[r.value] == Empty
  {
    match d
    case Easy => EasyChoice(b, pick)
    case Medium => if coin < 0.5 then EasyChoice(b, pick) else BestMove(b)
    case Hard => BestMove(b)
  }

  /** At every difficulty the computer plays an empty cell, and passes exactly on a full board. */
  lemma AiChoiceIsLegal(b: seq<Cell>, d: Difficulty, coin: real, pick: real)
    requires |b| == 9 && 0.0 <= coin < 1.0 && 0.0 <= pick < 1.0
    ensures AiChoice(b, d, coin, pick).None? <==> Empty !in b
    ensures AiChoice(b, d, coin, pick).Some? ==> b[AiChoice(b, d, coin, pick).value] == Empty
  {
    BestMoveIsFirstBest(b);
  }
}
