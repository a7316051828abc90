/** The game session held by the `TicTacToe` component: the board array, the move
    counter, the lock, the opponent mode and the difficulty, with the operations
    that update them in place. */
module Game {
  import opened Board
  import opened Search
  import opened Policy

  /** A human move is accepted when the game is not locked and the target is an
      empty cell; an index off the board reads as a non-empty cell. */
  predicate Accepts(lock: bool, b: seq<Cell>, num: int)
  {
    !lock && 0 <= num < |b| && b[num] == Empty
  }

  /** Marking an empty cell with the mark for the current count keeps the
      counter equal to the number of marks and "x" at most one move ahead. */
  lemma MarkKeepsBalance(b: seq<Cell>, k: Index, count: nat)
    requires |b| == 9 && b[k] == Empty
    requires count == Count(b, X) + Count(b, O)
    requires Count(b, X) == Count(b, O) || Count(b, X) == Count(b, O) + 1
    ensures var b' := b[k := Turn(count)];
      count + 1 == Count(b', X) + Count(b', O) &&
      (Count(b', X) == Count(b', O) || Count(b', X) == Count(b', O) + 1)
  {
    CountUpdate(b, k, Turn(count), X);
    CountUpdate(b, k, Turn(count), O);
  }

  /** The board invariant: `count` is the number of marks, "x" has made as many
      moves as "o" or one more, and `lock` holds exactly when the game is decided. */
  ghost predicate Coherent(b: seq<Cell>, count: nat, lock: bool)
  {
    |b| == 9 &&
    count == Count(b, X) + Count(b, O) &&
    (Count(b, X) == Count(b, O) || Count(b, X) == Count(b, O) + 1) &&
    lock == (CheckWin(b) != Ongoing)
  }

  class TicTacToe {
    var data: array<Cell>
    var count: nat
    var lock: bool
    var aiMode: bool
    var difficulty: Difficulty

    /** Nine cells; `count` is the number of marks; "x" has made as many moves
        as "o" or one more; the game is locked exactly when it is decided. */
    ghost predicate Consistent()
      reads this, data
    {
      data.Length == 9 && Coherent(data[..], count, lock)
    }

    /** Between two clicks: against the computer, an undecided game is always
        at the human's ("x"'s) turn. */
    ghost predicate Valid()
      reads this, data
    {
      Consistent() && (aiMode && !lock ==> count % 2 == 0)
    }

    /** The component's initial state: an empty board, two-player mode, Easy. */
    constructor ()
      ensures Valid() && fresh(data)
      ensures data[..] == seq(9, _ => Empty) && count == 0 && !lock
      ensures !aiMode && difficulty == Easy
    {
      data := new Cell[9](_ => Empty);
      count := 0;
      lock := false;
      aiMode := false;
      difficulty := Easy;
      new;
      assert data[..] == seq(9, _ => Empty);
      EmptyBoardOngoing();
      CountAbsent(data[..], X);
      CountAbsent(data[..], O);
    }

    /** `checkGameStatus`: locks a decided game and reports whether play goes on. */
    method CheckGameStatus() returns (ongoing: bool)
      requires data.Length == 9
      modifies this`lock
      ensures ongoing <==> CheckWin(data[..]) == Ongoing
      ensures lock == (old(lock) || !ongoing)
    {
      var winner := CheckWin(data[..]);
      CheckWinSpec(data[..]);
      if winner == Won(X) || winner == Won(O) {
        lock := true;
        ongoing := false;
      } else if Empty !in data[..] {
        lock := true;
        ongoing := false;
      } else {
        ongoing := true;
      }
    }

    /** `toggle`: a click on cell `num`. A refused click changes nothing. An
        accepted one places "x" on an even count and "o" on an odd one, and then,
        against the computer and while the game goes on, the computer replies
        with "o"; `coin` and `pick` are the random draws that reply may use. */
    method Toggle(num: int, coin: real, pick: real)
      requires Valid() && 0.0 <= coin < 1.0 && 0.0 <= pick < 1.0
      modifies data, this`count, this`lock
      ensures Valid()
      ensures !Accepts(old(lock), old(data[..]), num) ==>
                data[..] == old(data[..]) && count == old(count) && lock == old(lock)
      ensures Accepts(old(lock), old(data[..]), num) ==>
                var human := old(data[..])[num := Turn(old(count))];
                if aiMode && CheckWin(human) == Ongoing then
                  AiChoice(human, difficulty, coin, pick).Some? &&
                  data[..] == human[AiChoice(human, difficulty, coin, pick).value := O] &&
                  count == old(count) + 2
                else
                  data[..] == human && count == old(count) + 1
    {
      if lock || !(0 <= num < 9) || data[num] != Empty {
        return;
      }
      ghost var c0 := count;
      assert c0 % 2 == 0 ==> (c0 + 1) % 2 == 1 && (c0 + 2) % 2 == 0;
      var ongoing := Place(num, Turn(count));
      if aiMode && ongoing {
        assert c0 % 2 == 0 && count == c0 + 1;
        AiReply(coin, pick);
        assert count == c0 + 2;
      }
    }

    /** The reply `toggle` schedules against the computer while the game goes on:
        at every difficulty it places "o" on an empty cell. */
    method AiReply(coin: real, pick: real)
      requires Consistent() && count % 2 == 1 && 0.0 <= coin < 1.0 && 0.0 <= pick < 1.0
      requires CheckWin(data[..]) == Ongoing
      modifies data, this`count, this`lock
      ensures Consistent()
      ensures AiChoice(old(data[..]), difficulty, coin, pick).Some?
      ensures data[..] == old(data[..])[AiChoice(old(data[..]), difficulty, coin, pick).value := O]
      ensures count == old(count) + 1
    {
      CheckWinSpec(data[..]);
      AiChoiceIsLegal(data[..], difficulty, coin, pick);
      if difficulty == Easy {
        EasyAiMove(pick);
      } else if difficulty == Medium {
        MediumAiMove(coin, pick);
      } else {
        HardAiMove();
      }
    }

    /** `easyAiMove`: "o" on a random empty cell; nothing on a full board. */
    method EasyAiMove(pick: real)
      requires Consistent() && count % 2 == 1 && 0.0 <= pick < 1.0
      modifies data, this`count, this`lock
      ensures Consistent()
      ensures match EasyChoice(old(data[..]), pick)
                case None => data[..] == old(data[..]) && count == old(count) && lock == old(lock)
                case Some(k) => data[..] == old(data[..])[k := O] && count == old(count) + 1
    {
      var emptyBoxes := EmptyCells(data[..]);
      if |emptyBoxes| == 0 {
        return;
      }
      var randomMove := emptyBoxes[RandomIndex(pick, |emptyBoxes|)];
      assert randomMove in emptyBoxes;
      var _ := Place(randomMove, O);
    }

    /** `mediumAiMove`: the coin decides between the Easy and the Hard move. */
    method MediumAiMove(coin: real, pick: real)
      requires Consistent() && count % 2 == 1 && 0.0 <= coin < 1.0 && 0.0 <= pick < 1.0
      modifies data, this`count, this`lock
      ensures Consistent()
      ensures match AiChoice(old(data[..]), Medium, coin, pick)
                case None => data[..] == old(data[..]) && count == old(count) && lock == old(lock)
                case Some(k) => data[..] == old(data[..])[k := O] && count == old(count) + 1
    {
      if coin < 0.5 {
        EasyAiMove(pick);
      } else {
        HardAiMove();
      }
    }

    /** `hardAiMove`: tries "o" on every empty cell, scores it with `Minimax` and
        undoes it, then plays the first cell with the strictly greatest score;
        nothing on a full board. */
    method HardAiMove()
      requires Consistent() && count % 2 == 1
      modifies data, this`count, this`lock
      ensures Consistent()
      ensures match BestMove(old(data[..]))
                case None => data[..] == old(data[..]) && count == old(count) && lock == old(lock)
                case Some(k) => data[..] == old(data[..])[k := O] && count == old(count) + 1
    {
      ghost var b := data[..];
      var bestScore := NegInf;
      var move: Option<Index> := None;
      for i := 0 to 9
        invariant data[..] == b
        invariant count == old(count) && lock == old(lock)
        invariant move.Some? ==> b[move.value] == Empty
        invariant BestMoveFrom(b, i, bestScore, move) == BestMove(b)
      {
        if data[i] == Empty {
          data[i] := O;
          assert data[..] == b[i := O];
          var score := Minimax(data, false);
          data[i] := Empty;
          assert data[..] == b;
          if score > bestScore {
            bestScore := score;
            move := Some(i);
          }
        }
      }
      if move.Some? {
        BestMoveIsFirstBest(b);
        var _ := Place(move.value, O);
      }
    }

    /** The step `toggle`, `easyAiMove` and `hardAiMove` share: mark `c` on empty
        cell `k` (the mark for the current count), one more move counted, and the
        status re-checked; reports whether play goes on. */
    method Place(k: Index, c: Cell) returns (ongoing: bool)
      requires Consistent() && data[k] == Empty && c == Turn(count)
      modifies data, this`count, this`lock
      ensures Consistent()
      ensures data[..] == old(data[..])[k := c] && count == old(count) + 1
      ensures ongoing <==> CheckWin(data[..]) == Ongoing
      ensures lock == (old(lock) || !ongoing)
    {
      if lock {
        StaysDecided(data[..], k, c);
      }
      MarkKeepsBalance(data[..], k, count);
      data[k] := c;
      count := count + 1;
      ongoing := CheckGameStatus();
    }

    /** `reset`: a fresh empty board, the counter back to zero and the lock released. */
    method Reset()
      modifies this`data, this`count, this`lock
      ensures fresh(data) && data[..] == seq(9, _ => Empty)
      ensures count == 0 && !lock
      ensures Valid()
    {
      lock := false;
      data := new Cell[9](_ => Empty);
      count := 0;
      assert data[..] == seq(9, _ => Empty);
      EmptyBoardOngoing();
      CountAbsent(data[..], X);
      CountAbsent(data[..], O);
    }

    /** `changeDifficulty`: the next difficulty in the cycle, then a reset. */
    method ChangeDifficulty()
      modifies this
      ensures difficulty == NextDifficulty(old(difficulty)) && aiMode == old(aiMode)
      ensures fresh(data) && data[..] == seq(9, _ => Empty) && count == 0 && !lock
      ensures Valid()
    {
      difficulty := NextDifficulty(difficulty);
      Reset();
    }

    /** The "Play Against AI" button: computer opponent on, then a reset. */
    method PlayAgainstAi()
      modifies this
      ensures aiMode && difficulty == old(difficulty)
      ensures fresh(data) && data[..] == seq(9, _ => Empty) && count == 0 && !lock
      ensures Valid()
    {
      aiMode := true;
      Reset();
    }

    /** The "Two Player" button: computer opponent off, difficulty back to Easy, then a reset. */
    method PlayTwoPlayer()
      modifies this
      ensures !aiMode && difficulty == Easy
      ensures fresh(data) && data[..] == seq(9, _ => Empty) && count == 0 && !lock
      ensures Valid()
    {
      aiMode := false;
      difficulty := Easy;
      Reset();
    }
  }
}
