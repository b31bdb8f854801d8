# Reversi engine, modelled in Dafny

This project models the rules engine of a console Reversi game. The engine has three parts:
- `reversi.py` holds the `Reversi` object and its moves.
- `board.py` holds the n-by-n cell buffer and its symbol table.
- `constant.py` holds the game-status enumeration and its messages.

Cells hold codes: 0 is empty, 1 is white 'O' and 2 is black 'X'. The colour placed at a step is `step % 2 + 1`, so black moves first.

The model is split into modules:
- `Constant` (constant.dfy): the `Status` enum, its values and the `_STATUS` table.
- `Grid` (grid.dfy): grids as values. It covers shape, the start pattern, the piece tallies and the effect of painting one colour over a list of cells.
- `Boards` (board.dfy): the class `Board`, whose `board` field is an `array2<int>` that moves overwrite in place.
- `Rules` (rules.dfy): the side-effect-free part of `reversi.py`:
  - the eight rays and `scoreDirection`/`score`;
  - a reference description of which cells a move brackets;
  - `cmp` and the `reduce` in `aiPut`;
  - the two-letter move text.
- `Game` (game.dfy): what a `Reversi` object holds, as a value `GameState`. It defines each method of the engine as a transition on that value and proves the game's properties about those transitions.
- `Engine` (reversi.dfy): the class `Reversi`, with fields `turn`, `step` and `status` and the `Board` it owns.
  - Each method updates these in place, as the source does.
  - Each method is proved to perform exactly the `Game` transition on the value the object denotes (`State()`).
  - Writes to the fields sit in small methods (`Start`, `Paint`, `Advance`, `RaiseStep`, `LowerSteps`, `Decide`) that mirror the source's statements.
- `Wrappers` (wrappers.dfy): `Option` and `Result`.

An `assert` in `checkPut` that fails raises an `AssertionError`. Nothing catches it, so it ends the game loop. The model represents it as an `Err` result that leaves the state unchanged.

When the active colour cannot move but the other colour can, the code (reversi.py:128, 133, 135) raises `step` once and lowers it twice, a net change of -1. `Game.CheckGameSkip` proves that the colour still passes to the other side.

## Model

| member | source | states |
|---|---|---|
| Constant.Value | constant.py:10-15 | every member's value lies in 0..5 |
| Constant.FromValue | constant.py:8-15 | `Status(v)` names a member exactly when 0 <= v < 6 |
| Constant.ExactlySixMembers | constant.py:8-15 | there are six members, pairwise distinct, each listed at the position its value gives |
| Constant.MemberValues | constant.py:10-15 | WAIT=0, ONGOING=1, FOUL=2, XWIN=3, OWIN=4, DRAW=5 |
| Constant.ValueRoundTrip | constant.py:10-15 | taking a member's value and converting it back gives the same member |
| Constant.FromValueOnto | constant.py:10-15 | every value 0..5 names a member whose value is that number |
| Constant.TableKeys | constant.py:20-25 | `_STATUS` has exactly one entry per member value |
| Constant.Str | constant.py:17-18 | no ensures; `Constant.Messages` gives its result for every member |
| Constant.Messages | constant.py:17-25 | `str(status)` gives the table's message for each of the six members |
| Constant.MessagesDistinct | constant.py:20-25 | two members with the same message are the same member |
| Grid.StartCell | board.py:12-15 | no ensures; the start code of one cell, characterised by `Grid.StartTallies` |
| Grid.StartGrid | board.py:10-16 | no ensures; the grid `generateBoard` returns, characterised by `Grid.StartTallies` |
| Grid.Tally | reversi.py:124 | no ensures; the `Counter` entry for a code, the size of `Grid.CellsWith`, characterised by `Grid.TallyPartition` and `Grid.PaintMove` |
| Grid.Painted | reversi.py:111-112 | no ensures; the grid after the write loop, characterised by `Grid.PaintedKeepsCodes`, `Grid.PaintMoveAt` and `Boards.Board.Place` |
| Grid.PaintMoveAt | reversi.py:111-112 | cell by cell, the listed cells and the target hold the written colour and every other cell keeps its code |
| Grid.AllCells | reversi.py:170 | `product(range(n), repeat=2)` as a set is exactly the on-board positions |
| Grid.CellsWith | reversi.py:124 | a position is in the set iff it is on the board and holds the given code |
| Grid.AllCellsCard | reversi.py:124 | the board has n*n cells |
| Grid.TallyPartition | reversi.py:124 | with every cell holding a code, the empty, white and black tallies add up to n*n |
| Grid.StartTallies | board.py:10-16 | the start grid is n by n; (h,h) and (h-1,h-1) are white, (h,h-1) and (h-1,h) are black with h = n/2; two pieces each and n*n-4 empty cells |
| Grid.PaintedKeepsCodes | reversi.py:111-112 | writing a code in 0..2 keeps every cell a code and keeps the shape |
| Grid.PaintMoveCells | reversi.py:185-186 | after writing colour v over opponent cells and an empty target: the empty set loses the target, v gains the flipped cells and the target, the opponent loses the flipped cells |
| Grid.PaintMove | reversi.py:111-112 | the same move lowers the empty count by one, raises v's count by the number of distinct flipped cells plus one, and lowers the opponent's by that number |
| Boards.SymbolTable | board.py:8 | the `chess` table maps 0, 1, 2 to '.', 'O', 'X', and no two codes share a symbol |
| Boards.Board.Cells | board.py:7 | the buffer read row by row is n by n and agrees with the array cell by cell |
| Boards.Board.constructor | board.py:5-8 | a new board is valid, holds the start pattern and has the symbol table as `chess` |
| Boards.Board.GenerateBoard | board.py:10-16 | a fresh n-by-n buffer whose every cell holds its start code |
| Boards.Board.Place | reversi.py:111-112 | writing v into every listed cell, one at a time, leaves the board equal to the painted grid of the old one and still valid |
| Rules.DirectionsAreUnitSteps | reversi.py:13 | `_DIRECTIONS` lists eight entries, which are exactly the eight unit compass steps |
| Rules.Color | reversi.py:65 | the colour placed at a step is always 1 or 2 |
| Rules.ColorAlternates | reversi.py:65 | consecutive steps place opposite colours; steps two apart place the same colour |
| Rules.IsValidPosition | reversi.py:22-34 | no ensures; `0 <= x < n and 0 <= y < n`, used in `Rules.ScoreDirection` |
| Rules.NextPosition | reversi.py:36-50 | no ensures; the next cell along a direction, characterised by `Rules.NextPositionApproachesEdge` |
| Rules.ScoreDirection | reversi.py:67-92 | no ensures; characterised by `Rules.ScoreDirectionExact` |
| Rules.ScoreRays | reversi.py:65 | no ensures; characterised by `Rules.ScoreRaysFlanked` and `Rules.ScoreRaysNoDuplicates` |
| Rules.Score | reversi.py:52-65 | no ensures; characterised by `Rules.ScoreExact`, `Rules.ScoreOpponents` and `Rules.ScoreNoDuplicates` |
| Rules.NextPositionApproachesEdge | reversi.py:50 | each `nextPosition` step from an on-board cell moves one cell nearer the edge, so every ray ends |
| Rules.ScoreDirectionExact | reversi.py:86-92 | `scoreDirection` gives the accumulator plus the run of opponent cells when an own cell closes the run (an adjacent own cell gives none), and `[]`, discarding the collected cells, when the ray meets an empty cell or the edge first |
| Rules.ClosesUnique | reversi.py:88-92 | a ray is closed by one own-colour cell at most: the first one |
| Rules.RayFlanks | reversi.py:65 | a cell is in one direction's result iff that direction brackets it |
| Rules.ScoreRaysFlanked | reversi.py:65 | a cell is in the concatenation over a list of directions iff one of those directions brackets it |
| Rules.ScoreExact | reversi.py:65 | a cell is in `score(r, c)` iff some direction from (r, c) brackets it |
| Rules.FlanksOneDirection | reversi.py:65 | a cell bracketed by a placement lies in one of its directions only |
| Rules.ScoreRaysNoDuplicates | reversi.py:65 | over pairwise different directions, the concatenated rays list no cell twice |
| Rules.ScoreNoDuplicates | reversi.py:52-65 | `score(r, c)` lists no cell twice |
| Rules.ScoreOpponents | reversi.py:86-90 | every position `score` returns is on the board and holds the opponent colour |
| Rules.LegalHasClosedRun | reversi.py:86-92 | a non-empty `score` means some direction has a run of at least one opponent cell closed by an own cell |
| Rules.ClosedRunIsLegal | reversi.py:86-92 | conversely, such a run makes `score` non-empty |
| Rules.Product | reversi.py:170 | the enumerated positions are exactly the on-board ones |
| Rules.ProductFromSorted | reversi.py:170 | the enumeration is strictly row-major |
| Rules.EmptyCells | reversi.py:170 | the filter keeps exactly the listed positions that are empty |
| Rules.EmptyCellsSorted | reversi.py:170 | filtering keeps row-major order |
| Rules.Cmp | reversi.py:150-155 | `cmp` returns one of its arguments, with a flip list at least as long as either |
| Rules.Reduce | reversi.py:172 | no ensures; `reduce(cmp, xs, acc)`, characterised by `Rules.ReduceKeepsFirstLongest` |
| Rules.ScoreAll | reversi.py:171 | no ensures; pairs each listed cell with its `score`, characterised by `Rules.EmptyCandidatesFacts` |
| Rules.EmptyCandidates | reversi.py:170-171 | no ensures; characterised by `Rules.EmptyCandidatesFacts` |
| Rules.AiPut | reversi.py:157-173 | no ensures; characterised by `Rules.AiPutIsGreedy` and `Rules.AiPutOnBoard` |
| Rules.HasMove | reversi.py:126-127 | no ensures; characterised by `Rules.HasMoveIff` |
| Rules.ReduceKeepsFirstLongest | reversi.py:172 | over increasing positions, the fold either keeps the accumulator (nothing longer) or ends on the first candidate of maximal length, strictly longer than every earlier one and than the accumulator |
| Rules.EmptyCandidatesFacts | reversi.py:170-171 | the folded list pairs each empty cell, in row-major order, with its own `score`, and every empty cell occurs in it |
| Rules.AiPutIsGreedy | reversi.py:150-173 | `aiPut` gives `((), [])` exactly when no empty cell flips anything; otherwise an empty cell with its own flip list, of maximal length among empty cells and strictly longer than that of every row-major earlier empty cell |
| Rules.AiPutOnBoard | reversi.py:182-186 | when `aiPut` finds flips, its position is set and every cell `aiPlay` writes is on the board |
| Rules.HasMoveIff | reversi.py:126-127 | the probe finds a move iff some empty cell has a non-empty `score` |
| Rules.AiPutDependsOnColour | reversi.py:170-173 | `aiPut` depends on `step` only through the colour it places |
| Rules.TwoStepsSameMoves | reversi.py:128-136 | steps two apart have the same moves available |
| Rules.Decode | reversi.py:105-108 | a decoded position lies on the board |
| Rules.DecodeFails | reversi.py:105-108 | decoding fails exactly when the text is shorter than two characters or `ord(ch) - 97` of either of the first two is outside 0..n-1 |
| Rules.DecodeIgnoresTail | reversi.py:105-107 | characters after the second are ignored |
| Rules.MoveLabel | reversi.py:184 | the announced move text has two characters |
| Rules.LabelRoundTrip | reversi.py:184 | the move text the computer announces decodes back to its position |
| Rules.DecodeThenLabel | reversi.py:105-108 | a text that decodes starts with the label of the decoded position |
| Game.Player | reversi.py:214-216 | `turn % 2` selects entry 0 (`aiPlay`) or 1 (`pPlay`) |
| Game.Start | reversi.py:213 | `play` sets the status to ONGOING and changes nothing else |
| Game.CheckPut | reversi.py:105-115 | fails exactly on text that does not decode; otherwise keeps the cells codes, and without flips leaves them unchanged |
| Game.Sign | reversi.py:139 | `(oNum > xNum) - (oNum < xNum)` lies in -1..1 |
| Game.Winner | reversi.py:139 | `[DRAW, OWIN, XWIN][sign]` with Python's negative index: DRAW iff the counts are level, OWIN iff white has more, XWIN iff black has more |
| Game.WinnerValueRoundTrip | reversi.py:139 | the raw value stored converts back to that winner and is one of the three terminal values |
| Game.Initial | reversi.py:15-20 | no ensures; the state `__init__` builds, characterised by `Game.InitialFacts` |
| Game.AiPlay | reversi.py:175-189 | no ensures; characterised by `Game.AiPlayResult`, `Game.AiPlayNoMove`, `Game.AiPlayMove` and `Game.AiPlayConserves` |
| Game.PPlay | reversi.py:191-204 | no ensures; characterised by `Game.PPlaySteps`, `Game.PPlayFails`, `Game.PPlayEffect` and `Game.PPlayConserves` |
| Game.CheckGame | reversi.py:117-139 | no ensures; characterised by `Game.CheckGameSteps`, `Game.CheckGameKeepsCells`, `Game.CheckGameSkip` and `Game.CheckGameOutcome` |
| Game.Settle | reversi.py:125-139 | no ensures; characterised by `Game.SettleProbes` |
| Game.Round | reversi.py:214-217 | no ensures; characterised by `Game.RoundEffect` |
| Game.DistinctNoDuplicates | reversi.py:124 | a list without repetitions has as many distinct cells as entries |
| Game.FlipCount | reversi.py:150-152 | the length `cmp` compares is the number of distinct cells the move flips |
| Game.InitialFacts | reversi.py:15-20 | for an even size in 4..26 and a colour in X/x/O/o: the start pattern, status WAIT, black to move, the computer first iff it chose 'X', 2+2 pieces and n*n-4 empty cells |
| Game.AiPlayInv | reversi.py:185-186 | the computer's move keeps every cell a code |
| Game.AiPlayNoMove | reversi.py:182-183 | without a move `aiPlay` changes nothing |
| Game.AiPlayMove | reversi.py:182-189 | with a move, the greedy empty cell and its own flip list take the active colour and both counters advance by one |
| Game.AiPlayCounters | reversi.py:185-189 | the chosen empty cell takes the active colour, both counters advance by one, status and size are kept |
| Game.AiPlayConserves | reversi.py:185-186 | the computer's move: one empty cell fewer; the mover gains `len(score)` + 1 pieces and the opponent loses `len(score)` >= 1 |
| Game.MoveConserves | reversi.py:111-112 | painting a legal flip list and its empty target: one empty cell fewer; the mover gains `len(score)` + 1 pieces and the opponent loses `len(score)` >= 1 |
| Game.CheckPutEffect | reversi.py:109-115 | on decodable text, the move is made iff some direction has a closed run of opponent cells; a made move gives the active colour to the target and exactly the bracketed cells and keeps every other cell; an unmade one keeps the board |
| Game.PPlayFails | reversi.py:199 | `pPlay` fails exactly on text `checkPut` rejects |
| Game.PPlayEffect | reversi.py:199-202 | the counters advance iff the move flips something; otherwise nothing changes |
| Game.PPlayConserves | reversi.py:199-202 | a made human move onto an empty cell: one empty cell fewer; the mover gains `len(score)` + 1 pieces and the opponent loses `len(score)` |
| Game.CheckGameKeepsCells | reversi.py:124-139 | `checkGame` never changes the cells |
| Game.CheckGameCanMove | reversi.py:126-127 | when the active colour can move, the counters are kept |
| Game.CheckGameSkip | reversi.py:127-136 | when only the other colour can move: net `step - 1` and `turn - 1`, so the other colour and the other player kind are active |
| Game.CheckGameSkipMoves | reversi.py:127-136 | after such a pass the colour now active has a move |
| Game.SettleProbes | reversi.py:126-136 | how the probes move the counters in each of the three cases |
| Game.CheckGameStalled | reversi.py:128-131 | when neither colour can move, the probe's `step + 1` stays and a terminal status is stored |
| Game.CheckGameOutcome | reversi.py:138-139 | once the round ends the status is DRAW, OWIN or XWIN by the piece counts; otherwise it is kept |
| Game.CheckPutSteps | reversi.py:105-115 | `checkPut`'s statements in order (range check, `score`, painting the flips and the target) give `CheckPut` |
| Game.AiPlayResult | reversi.py:182-189 | `aiPlay` applies the candidate `aiPut` returns, and every cell it writes is on the board |
| Game.PPlaySteps | reversi.py:199-202 | `checkPut` followed by the counter update on success gives `PPlay` |
| Game.CheckGameSteps | reversi.py:126-139 | the probe after `step += 1` asks the other colour, and the statements of `checkGame` in order give `CheckGame` |
| Game.RoundEffect | reversi.py:214-217 | a round keeps the cells valid, fails only on the human's turn with rejected text, and leaves a running game running or finished |
| Engine.Reversi.constructor | reversi.py:15-20 | a new engine denotes the initial state for its size and the computer's colour |
| Engine.Reversi.CheckPut | reversi.py:105-115 | the method fails exactly when `CheckPut` does, returns whether the move was made, and leaves the board as `CheckPut` computes |
| Engine.Reversi.Paint | reversi.py:111-112 | the loop writing the active colour over the listed cells |
| Engine.Reversi.AiPlay | reversi.py:182-189 | the new state is `AiPlay` of the old one |
| Engine.Reversi.Move | reversi.py:183-189 | with flips: paint them and the position, then advance both counters; otherwise no change |
| Engine.Reversi.PPlay | reversi.py:199-204 | fails exactly when `PPlay` does and then changes nothing; otherwise the new state is `PPlay`'s |
| Engine.Reversi.Advance | reversi.py:201-202 | `step` and `turn` go up by one, nothing else changes |
| Engine.Reversi.CheckGame | reversi.py:124-139 | the new state is `CheckGame` of the old one |
| Engine.Reversi.RaiseStep | reversi.py:128 | the probe's `step += 1` |
| Engine.Reversi.LowerSteps | reversi.py:133-136 | `step` down by two and `turn` by one |
| Engine.Reversi.Decide | reversi.py:138-139 | the outcome is stored exactly when the round ends |
| Engine.Reversi.Start | reversi.py:213 | the status becomes ONGOING |
| Engine.Reversi.Round | reversi.py:214-217 | one pass of the game loop performs `Round`: it fails exactly when `Round` does and then leaves the state unchanged |

## Left out

- Console I/O is not modelled: every `print`, `Board.draw` (board.py:18-23) and `input()`. The human's move text is a parameter of `PPlay` and `Round`.
- Startup (reversi.py:221-237) is not modelled: dimension parsing, the fallback to 4 and the two asserts. The asserts become the requirements of `Game.InitialFacts`. The constructors require only `2 <= n`. For n = 1 `generateBoard` writes through Python's negative index -1, which names the single cell again; for n <= 0 the row list is empty and `board[i]` raises `IndexError`.
- The `while` loop of `play` (reversi.py:215-219) is not modelled. Its length depends on the human's input, so the model gives one round (`Round`) and proves nothing about termination.
- The loop's condition compares the stored raw value with the enum member `Status.ONGOING`. Under Python's `Enum` equality the two are never equal, so after a terminal round the loop stops. The model stores the status as a `Status` value. It converts the raw value back with `FromValue`, and `WinnerValueRoundTrip` proves that step exact.
- The global `reversi` inside `aiPlay` and `pPlay` is used only for drawing, so it is dropped.
- The exceptions of `checkPut` are `Err` results, and the game loop stops on them.
- The aliasing of the mutable `turn` list in `scoreDirection` is not modelled. Each ray starts from a fresh `[]`, so it cannot be observed; the accumulator is a value here.
- `scoreDirection` is modelled only on unit directions. The source only ever passes `_DIRECTIONS`; a zero step would revisit the same cell until Python raises `RecursionError`.
- `checkPut` does not check that the target cell is empty, and neither does the model. The properties that count pieces (`Game.PPlayConserves`) therefore require an empty target.
- `score` and `aiPut` are Dafny functions, so they cannot change the board. That `checkGame` keeps the board is `Game.CheckGameKeepsCells`, and `Engine.Reversi.CheckGame` modifies only the engine's own fields.
