# Tic-tac-toe engine: a Dafny model

This project models the game engine of the `TicTacToe` React component. That engine covers:

- the nine-cell board `data`, the move counter `count` and the `lock` flag
- the human move `toggle`
- the win/draw detector `checkWin` and the status update `checkGameStatus`
- the exhaustive `minimax` search and the Hard opponent `hardAiMove`
- the Easy and Medium opponents
- `reset`, `changeDifficulty` and the two mode buttons

Each of these is written in Dafny and its behaviour is proved.

The model has four modules:

- **Board** (`board.dfy`) holds the cells (`""`/`"x"`/`"o"` become `Empty`/`X`/`O`, row-major) and the eight winning triples. It defines `checkWin` as the function `CheckWin`, together with lemmas that describe the result in terms of the triples. It also holds the ascending list of empty cells and the mark chosen by the parity of the move count.
- **Search** (`search.dfy`) defines the value of `minimax` as the function `Score`. The imperative `minimax` is the method `Minimax`, which places a mark, recurses and undoes the mark on the same array. The method is proved to return `Score` and to leave every cell unchanged. The move that `hardAiMove`'s trial loop picks is the function `BestMove`. It is proved to be the lowest empty cell with the strictly greatest score.
- **Policy** (`policy.dfy`) holds the difficulty cycle and the moves of the Easy and Medium opponents. Each `Math.random()` draw is a real in [0, 1) that the caller supplies.
- **Game** (`game.dfy`) holds the class `TicTacToe`. Its fields are the board array, `count`, `lock`, `aiMode` and `difficulty`, and its methods update them in place. The constructor and the public operations (`Toggle`, `Reset`, `ChangeDifficulty`, `PlayAgainstAi`, `PlayTwoPlayer`) establish or keep the invariant `Valid()`:
  - `count` is the number of marks on the board.
  - "x" has made as many moves as "o", or one more.
  - `lock` holds exactly when the game is decided.
  - Against the computer, an undecided game always waits for "x".

  The steps inside `Toggle` (`Place`, `AiReply` and the three computer moves) keep only the first three clauses, `Consistent()`. They run between the human's mark and the reply, when "o" is to move. `CheckGameStatus` only updates `lock`.

`minimax` calls `checkWin(data)` rather than `checkWin(board)`. Its only caller passes `data` itself, so board and data are the same array. The model therefore evaluates the board argument.

A click on an index off the board is refused by the model, as in the component: `data[num] !== ""` holds for `undefined`. The component defines no move errors: it returns silently on a refused click and does not check whose turn it is, since the mark follows from the parity of `count`. The model follows the component in all of this.

## Model

| member | source | states |
|---|---|---|
| Board.FirstWin | tic-tac-toe/src/Components/TicTacToe/TicTacToe.jsx:106-111 | The pattern loop of `checkWin` from position `k`. Any triple it returns lies at or after `k` and wins. `FirstWinIsFirst` shows it is the first such triple. |
| Board.CheckWin | tic-tac-toe/src/Components/TicTacToe/TicTacToe.jsx:103-113 | `checkWin`. A reported winner is never empty, a draw comes only on a full board, and `null` only while a cell is empty. `CheckWinSpec` characterises it exactly. |
| Board.Turn | tic-tac-toe/src/Components/TicTacToe/TicTacToe.jsx:22 | The parity choice of the mark in `toggle` and nothing more: "x" on an even count, "o" on an odd one. |
| Board.FirstWinIsFirst | tic-tac-toe/src/Components/TicTacToe/TicTacToe.jsx:106-111 | The pattern loop from position `k` returns the first winning triple at or after `k`. It returns none only when no triple from `k` on wins. |
| Board.CheckWinSpec | tic-tac-toe/src/Components/TicTacToe/TicTacToe.jsx:103-113 | `checkWin` reports a winner exactly when some triple is non-empty and uniform. The winner is never empty and is the mark of the first such triple in list order. It reports "draw" exactly when no triple wins and no cell is empty, so a full board with a win reports the winner. It reports `null` exactly when no triple wins and some cell is empty. |
| Board.OngoingExactly | tic-tac-toe/src/Components/TicTacToe/TicTacToe.jsx:106-112 | The `null` case alone: no triple wins and a cell is empty. |
| Board.EmptyCellsFrom | tic-tac-toe/src/Components/TicTacToe/TicTacToe.jsx:51 | The map-and-filter from position `i` lists exactly the empty indices at or after `i`, in strictly ascending order. |
| Board.EmptyCells | tic-tac-toe/src/Components/TicTacToe/TicTacToe.jsx:51-52 | `emptyBoxes` holds exactly the empty indices, ascending. It is empty exactly when the board is full. |
| Board.TurnFollowsMarks | tic-tac-toe/src/Components/TicTacToe/TicTacToe.jsx:22 | With balanced marks, the turn shown by the count's parity is "x" exactly when both sides have the same number of marks. |
| Board.CountUpdate | tic-tac-toe/src/Components/TicTacToe/TicTacToe.jsx:22 | Writing one cell moves one unit of the mark count from the old content to the new. |
| Board.CountAbsent | tic-tac-toe/src/Components/TicTacToe/TicTacToe.jsx:115-119 | A board without a mark has that mark zero times, so a cleared board counts no moves. |
| Board.StaysDecided | tic-tac-toe/src/Components/TicTacToe/TicTacToe.jsx:106-112 | Filling an empty cell of a decided board leaves it decided, so a locked game stays locked. |
| Board.EmptyBoardOngoing | tic-tac-toe/src/Components/TicTacToe/TicTacToe.jsx:6 | The initial empty board is undecided. |
| Board.DiagonalWinForX | tic-tac-toe/src/Components/TicTacToe/TicTacToe.jsx:104-110 | Any board with x on cells 0, 4 and 8 reports x as the winner, whatever the other cells hold. |
| Board.FullBoardDraw | tic-tac-toe/src/Components/TicTacToe/TicTacToe.jsx:112 | The full board x o x / x o o / o x x, which has no winning triple, reports a draw. |
| Board.FullBoardWin | tic-tac-toe/src/Components/TicTacToe/TicTacToe.jsx:106-112 | The full board o x x / x o o / x x o, whose main diagonal is all o, reports o as the winner, not a draw. |
| Search.Score | tic-tac-toe/src/Components/TicTacToe/TicTacToe.jsx:34-48 | The value `minimax` returns, as a function of the board. `ScoreIsMinimax` and `ScoreInRange` specify it. |
| Search.ScoreFrom | tic-tac-toe/src/Components/TicTacToe/TicTacToe.jsx:38-47 | The `for` loop of `minimax` from cell `i`, with `best` the score so far. `ScoreFromIsBest` specifies it. |
| Search.ScoreFromIsBest | tic-tac-toe/src/Components/TicTacToe/TicTacToe.jsx:39-46 | The loop from cell `i` is at least as good as the running best and as every child at or after `i`, for the side to move. It equals the running best or one of those children. |
| Search.ScoreInRange | tic-tac-toe/src/Components/TicTacToe/TicTacToe.jsx:35-47 | Every score `minimax` returns is 10, 0 or -10: a sentinel never escapes. |
| Search.ScoreIsMinimax | tic-tac-toe/src/Components/TicTacToe/TicTacToe.jsx:34-48 | An o win scores 10, an x win -10 and a draw 0. An undecided board scores the max (o to move) or the min (x to move) of its children, and some child attains it. |
| Search.Minimax | tic-tac-toe/src/Components/TicTacToe/TicTacToe.jsx:34-48 | The in-place search returns the minimax value of the board it was given. Every trial placement is undone, so every cell ends as it was before the call. |
| Search.BestMoveFrom | tic-tac-toe/src/Components/TicTacToe/TicTacToe.jsx:71-81 | The trial loop of `hardAiMove` from cell `i`. Starting from no move or an empty cell, it ends with an empty cell. It ends with no move only if it started with none. `BestMoveFromIsFirstBest` pins the cell down. |
| Search.BestMove | tic-tac-toe/src/Components/TicTacToe/TicTacToe.jsx:69-82 | The move `hardAiMove` makes: an empty cell, or none. `BestMoveIsFirstBest` characterises it exactly. |
| Search.BestMoveFromIsFirstBest | tic-tac-toe/src/Components/TicTacToe/TicTacToe.jsx:71-81 | From any loop state that is first-best so far, the rest of the trial loop ends with the first-best empty cell overall. It ends with no move exactly when no cell was empty. |
| Search.BestMoveIsFirstBest | tic-tac-toe/src/Components/TicTacToe/TicTacToe.jsx:69-82 | The Hard move is some cell `k` exactly when `k` is the lowest empty cell with the greatest trial score; ties keep the earlier cell. There is no move exactly when the board is full. |
| Search.BestMoveIsOptimal | tic-tac-toe/src/Components/TicTacToe/TicTacToe.jsx:69-81 | On an undecided board there is a Hard move, and its trial score equals the minimax value of the board for o. |
| Search.FirstBestAttains | tic-tac-toe/src/Components/TicTacToe/TicTacToe.jsx:76-79 | The first-best cell reaches any value that bounds every trial and is reached by one of them. |
| Search.ThreatIgnored | tic-tac-toe/src/Components/TicTacToe/TicTacToe.jsx:72-75 | On the threat board, the trial of o at 0 scores -10, since x then completes the bottom row. |
| Search.ThreatBlocked | tic-tac-toe/src/Components/TicTacToe/TicTacToe.jsx:72-75 | On the threat board, the trial of o at 8 scores 0, since the game is then drawn. |
| Search.HardBlocksThreat | tic-tac-toe/src/Components/TicTacToe/TicTacToe.jsx:69-81 | The Hard opponent blocks at 8 rather than taking the lower free cell 0. |
| Policy.NextDifficulty | tic-tac-toe/src/Components/TicTacToe/TicTacToe.jsx:125-128 | `changeDifficulty`'s rotation Easy, Medium, Hard. Every step changes the difficulty. `DifficultyCycles` shows the cycle has length three. |
| Policy.DifficultyCycles | tic-tac-toe/src/Components/TicTacToe/TicTacToe.jsx:125-128 | Two steps do not return to the start, and three steps are the identity. |
| Policy.RandomIndex | tic-tac-toe/src/Components/TicTacToe/TicTacToe.jsx:53 | `Math.floor(r * n)` for a draw in [0, 1) is an index below `n`. |
| Policy.RandomIndexReachesAll | tic-tac-toe/src/Components/TicTacToe/TicTacToe.jsx:53 | Every index below `n` is produced by some draw. |
| Policy.EasyChoice | tic-tac-toe/src/Components/TicTacToe/TicTacToe.jsx:51-54 | The Easy move is an empty cell. There is none exactly when the board is full. |
| Policy.EasyReachesEveryEmptyCell | tic-tac-toe/src/Components/TicTacToe/TicTacToe.jsx:51-54 | Every empty cell is the Easy move for some draw. |
| Policy.AiChoice | tic-tac-toe/src/Components/TicTacToe/TicTacToe.jsx:27-66 | The computer's move by difficulty: Easy at random, Hard by search, Medium by a coin below 0.5 for Easy. Any move it makes is an empty cell. `AiChoiceIsLegal` adds that it passes exactly on a full board. |
| Policy.AiChoiceIsLegal | tic-tac-toe/src/Components/TicTacToe/TicTacToe.jsx:27-31 | At every difficulty, the computer's move is an empty cell, and there is none exactly when the board is full. |
| Game.MarkKeepsBalance | tic-tac-toe/src/Components/TicTacToe/TicTacToe.jsx:22-24 | Placing the mark for the current count on an empty cell keeps `count` equal to the number of marks. It also keeps x level with o or one ahead. |
| Game.TicTacToe.constructor | tic-tac-toe/src/Components/TicTacToe/TicTacToe.jsx:6-13 | The state on first load: an empty board, count 0, unlocked, two-player mode and Easy. It satisfies the invariant. |
| Game.TicTacToe.CheckGameStatus | tic-tac-toe/src/Components/TicTacToe/TicTacToe.jsx:90-101 | Reports play going on exactly when `checkWin` is `null`, and locks the game otherwise (a lock is never released here). |
| Game.TicTacToe.Toggle | tic-tac-toe/src/Components/TicTacToe/TicTacToe.jsx:18-32 | A refused click (locked, off the board or occupied) changes nothing. An accepted one marks exactly that cell with x on an even count and o on an odd one, and adds one to the count. Then, against the computer and while the game goes on, o is placed on the cell the difficulty's policy picks and the count goes up by one more. The invariant is kept. |
| Game.TicTacToe.AiReply | tic-tac-toe/src/Components/TicTacToe/TicTacToe.jsx:27-31 | The reply dispatched by difficulty always places o on the policy's cell of the undecided board and counts one move. |
| Game.TicTacToe.EasyAiMove | tic-tac-toe/src/Components/TicTacToe/TicTacToe.jsx:50-58 | Places o on the empty cell the draw picks from the ascending empty list and counts one move. Does nothing on a full board. |
| Game.TicTacToe.MediumAiMove | tic-tac-toe/src/Components/TicTacToe/TicTacToe.jsx:60-66 | A coin below 0.5 makes the Easy move, otherwise the Hard move. |
| Game.TicTacToe.HardAiMove | tic-tac-toe/src/Components/TicTacToe/TicTacToe.jsx:68-88 | The trial loop restores the board after each trial. Then o goes on the first-best cell and one move is counted. Nothing changes on a full board. |
| Game.TicTacToe.Place | tic-tac-toe/src/Components/TicTacToe/TicTacToe.jsx:22-25 | The write, count and status-check step shared by the moves: exactly one cell changes, the count goes up by one, and the lock follows the new status. |
| Game.TicTacToe.Reset | tic-tac-toe/src/Components/TicTacToe/TicTacToe.jsx:115-123 | A fresh all-empty board, count 0 and the lock released, with the invariant restored. |
| Game.TicTacToe.ChangeDifficulty | tic-tac-toe/src/Components/TicTacToe/TicTacToe.jsx:125-130 | Moves to the next difficulty in the cycle, then resets; the mode is unchanged. |
| Game.TicTacToe.PlayAgainstAi | tic-tac-toe/src/Components/TicTacToe/TicTacToe.jsx:136 | Turns the computer opponent on, keeps the difficulty, and resets. |
| Game.TicTacToe.PlayTwoPlayer | tic-tac-toe/src/Components/TicTacToe/TicTacToe.jsx:138 | Turns the computer opponent off, sets Easy, and resets. |

## Left out

- DOM writes are not modelled, because they are presentation only. They cover the `innerHTML` of the cells and the title, the image imports and the markup (`TicTacToe.jsx:23, 55, 84, 94, 98, 120-121, 132-153`). The messages "Congratulations … Wins" and "Game Drawn" are therefore absent.
- React hooks and re-rendering are not modelled. `count`, `lock`, `aiMode` and `difficulty` are plain fields updated at once. The render-local flag `ongoing` is the result of `CheckGameStatus`.
- setTimeout is not modelled. The computer's reply is a synchronous step of `Toggle`, taken only while the game goes on, instead of a callback 500 ms later. A click that lands inside that window is therefore not modelled. Such a click would be accepted as an "o" move, and the delayed reply would then place another "o".
- `Math.random` is not modelled. Each draw is a caller-supplied real in [0, 1), and no probabilities are stated.
- `Infinity` is not modelled. The sentinels `-Infinity`/`Infinity` are the integers -11/11, outside {-10, 0, 10}.
- The `depth` argument of `minimax` is left out, because the source never reads it.
- At board level it is not proved that `minimax` on the empty board gives o a non-losing move. Proving it would mean evaluating the full game tree of up to 9! lines, which is out of reach for the verifier. Optimality with respect to the minimax value is proved (`Search.BestMoveIsOptimal`). One concrete scenario is proved (`Search.HardBlocksThreat`).
- Search.Minimax: the model passes the board array explicitly and evaluates that board. The source evaluates the global `data`, and its only caller passes that same array.
- Game.TicTacToe.constructor: in the component, the board `data` is a module-level variable (`TicTacToe.jsx:6`), while `count`, `lock`, `aiMode` and `difficulty` belong to each mounted instance (`TicTacToe.jsx:10-13`). So the component's board is shared by every mounted instance and survives an unmount and remount. A remount after moves has count 0 and no lock with marks still on the board, which breaks the invariant. In the model each session owns its own board, created empty, so that sharing and carry-over are not captured.
