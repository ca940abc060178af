# Checkers engine model

A Dafny model of the checkers (English draughts) engine in `Checkers.py`:
the board and its initial layout, the board fingerprint and the visit
counter keyed by it, move generation under the mandatory-capture rule,
playing and undoing a step, the three heuristic evaluators and the
repetition penalty, the depth-limited alpha-beta search, and the two
players (the minimax player and the random player), including their capture
chains.

The engine works on one mutable board. The model keeps that board as an
immutable grid (`seq<seq<int>>`) and threads it: every operation that
writes the board returns the new one. The search (`Minimax`) and the
minimax player's scoring loop (`Trial`, `PickBest`) play steps and undo
them, and they are proved to return the board they started from. The
players themselves return the board after their turn. Randomness is a draw stream `roll: nat -> nat` with an
index of the next unused draw; a uniform choice from a list of length `n`
is `roll(k) % n`, and the shuffle is the Fisher-Yates shuffle drawing one
value per position above the first.

Modules, in dependency order:

- `Grid` (grid.dfy): the grid type, and sums over all cells of a per-cell
  contribution with their linearity, monotonicity and point-update laws.
  Every whole-board loop of the engine is such a sum.
- `BoardModel` (board.dfy): piece values, well-formed boards, `IsValid`,
  `CellContains`, piece counts, the fingerprint `Encode`, the visit counter,
  and the constructor `NewGame`.
- `Moves` (moves.dfy): `NextPositions` and `NextMoves`, with the legality
  predicate `LegalStep` they are proved against.
- `Executor` (executor.dfy): `PlayMove` and `UndoMove`.
- `Evaluators` (evaluators.dfy): `Evaluate1`, `EndGame`, `Evaluate2` and
  `StateValue`.
- `Ordering` (ordering.dfy): the flattening of a move set into steps, the
  stable sort by number of destinations, uniform choice and the shuffle.
- `Search` (search.dfy): the alpha-beta search `Minimax`, and `Value`, the
  same search without pruning, which is the reference its soundness is
  stated against.
- `Players` (players.dfy): the minimax player and the random player.

The docstring of `encodeBoard` (Checkers.py:80) promises a unique integer
for every state. The code weighs each cell value by its row-major index
plus 5, and that is not enough: a black man (value 2) on a cell of
weight w scores the same as a white man (value 1) on a cell of weight 2w.
The model keeps the code's fingerprint. `stateValue` reads visit counts
keyed by it, so two positions that collide share one count, as they do in
the engine.

A crash of the engine is modelled as `None`. The minimax player crashes
when no step scores above minus infinity, since it then unpacks a missing
best move. The random player crashes when `random.choice` draws an entry with no
destinations.

## Model

| member | source | states |
|---|---|---|
| BoardModel.NewGame | Checkers.py:27-56 | The constructor fails exactly for an odd size or a size below 4. Otherwise it builds a well-formed square board of that size holding the initial layout, with an empty visit counter. |
| BoardModel.RowFrom | Checkers.py:48-53 | One row of the constructor's inner loop has the remaining length, and its cells alternate between the running piece and empty, starting with the piece exactly when the flag is set. |
| BoardModel.RowsFrom | Checkers.py:40-54 | The rows the constructor's outer loop builds from row i on are square rows holding exactly the initial cell values, where the running piece switches to empty and then to black men. |
| BoardModel.InitialLayout | Checkers.py:35-54 | In the initial board only dark squares (odd i + j) are occupied. The rows before the two middle rows hold white men, the rows after them hold black men, and the two middle rows are empty. |
| BoardModel.CellContainsPieces | Checkers.py:307-318 | A cell contains WHITE exactly when it holds a white man or king, and contains BLACK exactly when it holds a black man or king. A cell is empty exactly when it contains neither side. |
| BoardModel.EncodeZero | Checkers.py:79-92 | The fingerprint of a well-formed board is never negative, and it is zero exactly on the empty board. |
| BoardModel.EncodePlace | Checkers.py:85-92 | Putting value v on an empty cell (i, j) raises the fingerprint by (i * size + j + 5) * v. |
| BoardModel.EncodeCollision | Checkers.py:79-92 | The fingerprint does not identify a board, although its docstring says each state gets a unique integer. A lone black man at (1, 0) and a lone white man at (2, 5) on an 8 x 8 board, both on dark squares short of their crowning rows, share the fingerprint 26. |
| BoardModel.Bump | Checkers.py:575 | Counting a visit raises that fingerprint's count by one and leaves every other count alone. |
| BoardModel.BumpGrows | Checkers.py:575-604 | Counting the start position, then anything that only raises counts, then the end position: no count drops, and the start position's count strictly rises. |
| Moves.Try | Checkers.py:141-151 | Trying one direction finds at most the empty neighbour in that direction as a quiet destination. It finds at most the empty cell beyond an opposing neighbour as a capture destination, and nothing else. |
| Moves.Probe | Checkers.py:141-151 | Trying the first k directions finds exactly the quiet steps and the captures of the piece whose direction index is below k. |
| Moves.NextPositions | Checkers.py:122-153 | The quiet destinations are exactly the empty diagonal neighbours in a direction the piece may go. The capture destinations are exactly the empty cells two diagonal steps away, over an opposing piece, in such a direction. |
| Moves.Scan | Checkers.py:164-173 | After the row-major scan reaches a cell, each of the two lists holds, in scan order, one entry for every earlier piece of the player with destinations of its kind, and nothing else. |
| Moves.NextMoves | Checkers.py:155-176 | Every entry is a piece of the player with a nonempty list of destinations of one kind. When any piece can capture, every destination is a capture. Every piece with such destinations has its entry. The set is empty exactly when no piece has any step. Entries come in row-major order. |
| Moves.NextMovesOk | Checkers.py:155-176 | Every step the generator offers is a legal step of the player. |
| Moves.Opening | Checkers.py:27-56 | In the initial position of any legal size, neither side has a capture. Each side has at least one move, and every step offered is a quiet step onto an empty neighbour. |
| Moves.OpeningNoCapture | Checkers.py:27-56 | No piece has a capture destination in the initial position. |
| Moves.CapturesOk | Checkers.py:277-280 | The single entry a capture chain continues with offers only legal steps. |
| Executor.Relocate | Checkers.py:192-193 | The piece moves to the destination, its source becomes empty, and no other cell changes. |
| Executor.Promote | Checkers.py:202-208 | A man is crowned exactly when it is a white man on the last row or a black man on row 0. Crowning adds 2 to the value of that one cell. |
| Executor.PlayMove | Checkers.py:178-213 | The reported captured piece is the cell jumped over on a two-row step, and 0 otherwise. Promotion is reported exactly when a man reaches the far row. Further capture is possible exactly after an uncrowned two-row step. Only the source, the destination and the jumped cell change. |
| Executor.UndoMove | Checkers.py:215-239 | The source gets back the moved piece, demoted if it was just crowned. The destination becomes empty, the jumped cell gets back the captured value, and nothing else changes. |
| Executor.UndoPlayMove | Checkers.py:178-239 | Undoing a step with what playing it reported restores the board exactly. This holds for quiet steps and captures, crowning or not. |
| Executor.PlayMoveWf | Checkers.py:192-208 | Playing a step keeps every cell a valid piece value. |
| Executor.PlayLegal | Checkers.py:192-213 | After a legal step the player still owns the destination and keeps every piece. The opponent loses one piece on a capture and none otherwise. A captured piece is reported exactly on a capture. |
| Evaluators.Evaluate1 | Checkers.py:286-305 | The material evaluator is 1000 times the difference in material between the maximizer and the opponent, a man worth 1 and a king 2. |
| Evaluators.Evaluate1ZeroSum | Checkers.py:286-305 | The material score of WHITE is the negation of BLACK's. |
| Evaluators.StateValue | Checkers.py:428-450 | The repetition penalty is never positive. It is nonzero only when the maximizer has more pieces than the opponent, and then it is minus the visit count of the current fingerprint. |
| Evaluators.StateValueOneSided | Checkers.py:428-450 | At most one side is ever penalised for repeating a position. |
| Evaluators.EndGame | Checkers.py:320-373 | When ahead on pieces, the score is 1000 times the material difference (a king worth 2, a man 1) plus 10 per row of advancement, less the spread, less 5 when the opponent holds a double corner. The advancement (`Advance`) sums how far each of the maximizer's men stands from its home row, and the spread (`Spread`) sums the squared distance from every maximizer piece to every opposing piece. Both sums are never negative. Otherwise it is the material term plus the spread, plus 5 when the maximizer holds a double corner. |
| Evaluators.EndGameCloser | Checkers.py:366-373 | Of two positions alike in piece counts, material, advancement and double corners, the evaluator prefers, when ahead, exactly the one where the maximizer stands closer to the opposing pieces, and otherwise exactly the one where it stands farther away. |
| Evaluators.EndGameChaseOrFlee | Checkers.py:370-373 | When ahead, the positional terms only pull the end-game score below material plus advancement. When not ahead, they only push it above material. |
| Evaluators.ThreatIsCapture | Checkers.py:408-419 | With the jump direction corrected, a piece of the maximizer is threatened along a diagonal exactly when the opposing piece next to it may capture it, landing on the cell opposite. |
| Evaluators.ThreatAsWrittenReversed | Checkers.py:408-419 | As written, an opposing man next to a piece of the maximizer, with the cell opposite empty, counts as a threat exactly when it may not jump that way. |
| Evaluators.ThreatAsWrittenMisses | Checkers.py:408-419 | On an 8 x 8 board with a white man at (3, 2) and a black man at (4, 3), the black man can capture, yet the test as written reports no threat to WHITE, while the corrected test does. |
| Evaluators.Count2 | Checkers.py:385-424 | Men plus kings, and also vulnerable plus protected, each equal the signed piece count. Men plus twice kings is the signed material. The back-row count is between 0 and the maximizer's piece count. This holds with the engine's vulnerability test and with the corrected one. |
| Evaluators.Evaluate2 | Checkers.py:375-426 | The positional score, with the engine's own vulnerability test, is twice the material evaluator plus the weighted back-row, centre, middle-row and protected-minus-vulnerable terms. |
| Evaluators.Evaluate2Fixed | Checkers.py:375-426 | The same positional score with the corrected vulnerability test (see Findings). |
| Evaluators.Evaluate2Fix | Checkers.py:408-426 | The corrected score exceeds the engine's by 600 times the signed number of pieces the engine counts as vulnerable, less those the corrected test counts. |
| Evaluators.Evaluate2KingsOnly | Checkers.py:408-426 | On a board holding only kings the two tests agree, and so do the two scores. |
| Ordering.Flatten | Checkers.py:494-496 | The steps tried for a move set are exactly the pairs of an entry's source with one of its destinations. |
| Ordering.SortByDests | Checkers.py:493 | Sorting by number of destinations gives a nondecreasing order and a permutation of the entries. |
| Ordering.SortStable | Checkers.py:493 | The sort is stable: entries with the same number of destinations keep their relative order. |
| Ordering.Choice | Checkers.py:266-268 | A uniform choice picks an element of the list. |
| Ordering.Shuffle | Checkers.py:577 | The shuffle permutes the list and uses one draw per position above the first. |
| Ordering.ShuffleMembers | Checkers.py:577 | The shuffle neither loses nor invents an entry. |
| Search.Candidates | Checkers.py:479-480 | The searched entries, whether the full move set or a chain's continuation, offer only legal steps. |
| Search.Leaf | Checkers.py:481-486 | A leaf scores the evaluation. When that is negative, exactly the depth is added to it. Otherwise, and always at the root, it is the evaluation itself. |
| Search.LeafDeeper | Checkers.py:483-485 | A lost position found deeper scores strictly higher than the same position found sooner, so a loss is put off as long as possible. A position that is not lost scores the same at every depth. |
| Search.Continuation | Checkers.py:501-505 | A chain continues exactly when the step may keep capturing and the landed piece has a capture. The continuation is a single entry from the landed cell with only capture destinations. |
| Search.After | Checkers.py:498-505 | A searched step keeps the board well-formed and can be undone exactly. The same side moves again while its chain continues, and the opponent moves otherwise. |
| Search.Minimax | Checkers.py:452-540 | The search leaves the board exactly as it found it. |
| Search.Explore | Checkers.py:494-538 | The search loop is never worse for the side to move than its starting value, and it leaves the board as it found it. |
| Search.MinimaxLeaf | Checkers.py:479-486 | Where the side to move has no move, or the depth limit is reached, the search value is the leaf score. |
| Search.MinimaxBounds | Checkers.py:488-490 | An inner node's value is at least minus infinity for the maximizer and at most infinity for the opponent. |
| Search.MinimaxSound | Checkers.py:452-540 | Alpha-beta pruning is sound inside any open window. Clamped to the window, the pruned value equals the value of the same search without pruning. |
| Search.ExploreSound | Checkers.py:494-538 | The pruned loop over the steps, clamped to the window, agrees with the unpruned fold over all children's values. |
| Search.RootSound | Checkers.py:452-540 | Called with the full window from the root, the search returns the unpruned value whenever that lies strictly between minus infinity and infinity. |
| Players.SingleStepChain | Checkers.py:274-281 | A single step is a whole turn exactly when the moved piece may not keep capturing, so a turn never stops while its piece can still capture. |
| Players.Replay | Checkers.py:272-281 | Playing a chain keeps the board well-formed and keeps every piece of the player. The opponent never gains a piece and loses at least one when the chain starts with a capture. |
| Players.PlayStep | Checkers.py:272 | A legal step lands the player's piece on its destination and keeps the player's pieces. It removes exactly the jumped opposing piece, and further capture is possible only after a capture. |
| Players.Reply | Checkers.py:584-585 | Scoring a step searches the position after it, leaves that position unchanged, and the step can then be undone exactly. |
| Players.Trial | Checkers.py:584-587 | Trying a step restores the board and yields that step's score: the search value plus twice the repetition penalty. |
| Players.FirstBest | Checkers.py:588-590 | The scan's best score bounds every score. When it beats the start value, the choice is the first entry reaching it. |
| Players.PickBest | Checkers.py:581-590 | Trying every step in turn restores the board and yields the first of the highest scores. |
| Players.PickAbove | Checkers.py:581-590 | No step scores above the best score found. |
| Players.PickChosen | Checkers.py:578-592 | The chosen step is one of the steps and has the best score. No step is chosen only when the best score is still minus infinity. |
| Players.PickFirst | Checkers.py:588-590 | Among steps with equal best scores, the first one tried is chosen. |
| Players.MinimaxChoice | Checkers.py:575-592 | The chosen step is a legal step of the move set. The shuffle uses one draw per entry above the first. |
| Players.MinimaxChoiceBest | Checkers.py:575-592 | The chosen step scores at least as much as every step of the move set. |
| Players.MinimaxTurn | Checkers.py:568-606 | The player moves exactly when it has moves. Its first step is the step MinimaxChoice picks, the first best-scoring one, and the turn fails whenever that choice finds no step. It then keeps capturing with the moved piece until that piece has no capture left, the board is that chain replayed, and the capture flag is set exactly when the first step captures. Visit counts only grow, and the starting position's count rises when the player moves. |
| Players.MinimaxTurnBest | Checkers.py:581-592 | The first step of the minimax player's turn scores at least as much as every step it was offered. |
| Players.MinimaxPlay | Checkers.py:542-606 | The minimax player's turn on its own move set or on a given continuation keeps the turn promise of MinimaxTurn. That covers the first step being MinimaxChoice's pick, failure when no step is picked, and a capture chain that runs until the moved piece has no capture left. |
| Players.RandomTurn | Checkers.py:260-284 | The random player keeps the same turn promise, so its capture chain also runs until the moved piece has no capture left. It leaves the visit counts alone and uses two draws per step. On a move set whose entries all have destinations it never fails. |
| Players.RandomPlay | Checkers.py:241-284 | The random player's turn on its own move set or a given continuation keeps that promise, capture chain run to its end included, and on its own move set it never fails. |
| Players.OpeningRandomPlay | Checkers.py:241-284 | From the initial position the random player always moves, and it reports no capture on its first turn. |

## Left out

- Printing of boards, moves and the winner, and the `enablePrint` flag: output only.
- `printBoard`, `getBoard`, `setBoard`: display and copying. The model's boards are values.
- `Game.py` and `MinimaxVsRandom.py`: the game loop, draw rule and match driver are not part of this model.
- The random number generator: draws are an abstract stream. Python's `random.choice` and `random.shuffle` are modelled by the index arithmetic above, not by Python's generator.
- Moves.NextPositions: requires an occupied cell. The source answers a bare empty list for an empty cell, which none of its callers unpacks.
- Search.Minimax: requires 0 <= depth <= maxDepth. With a negative maximum depth the source only stops at a position without moves, which is not modelled.
- The `evaluate` parameter is one of the three evaluators, chosen by the `Evaluator` datatype, not an arbitrary function.
- The float division in `evaluate2`'s opponent direction is exact here: it divides plus or minus 2 by its absolute value. It is modelled with integers.
- Evaluators.Evaluate2Fixed: this is not the program's evaluator. The search and the players use `Evaluate2`, the engine's own. The corrected test also flips the direction for the opponent's pieces. For those the engine looks for a neighbour of the opponent's own side, and no intent is evident there, so ThreatIsCapture states the corrected meaning only for the maximizer's pieces.
- Players.MinimaxTurn: only the first step is tied to MinimaxChoice. Each later capture is the choice of the turn on the continuation, stated by the same contract one level down, and a failure deeper in a chain is not characterized.
- Players.MinimaxTurn: the visit counts are stated only to grow, with the start position counted at least once more. The exact count after a chain is not stated. Each level of a chain counts its own start and the final position, as the source does.
- Players.MinimaxChoice: states the chosen step's score only relative to the other steps (MinimaxChoiceBest). It does not state the search value of any step, which depends on the whole game tree.
- The minimax player scores a capturing step by searching with the opponent to move, even when the chain would continue. The model does the same, since the source does.
- Players.OpeningRandomPlay: the exact number of opening steps (seven on the 8 x 8 board) is not stated. The statement covers only that a quiet step exists.
- The minimax player is not shown to succeed from the initial position. That would need bounds on the evaluators' scores.

## Findings

| source | as written | input that shows it | evidently intended | confidence | as-written member | corrected member |
|---|---|---|---|---|---|---|
| Checkers.py:415-417 | `opDir = abs(x-n)/(x-n)` is the sign of the step from the landing cell back to the threatening piece, and a man counts as a threat when `myDir != opDir`. So an opposing man counts as a threat exactly when it may not jump the maximizer's piece (`ThreatAsWritten`, used by `Evaluate2`; `ThreatAsWrittenReversed` for every board and `ThreatAsWrittenMisses` on the example). | 8 x 8 board, maximizer WHITE, white man at (3, 2), black man at (4, 3), (2, 1) empty: the black man can capture, yet the piece is counted as protected. | The sign of the jump itself, from (x, y) to (n, m): a piece is vulnerable when the opposing man next to it can capture it (`Threat`, proved right by `ThreatIsCapture`). `Evaluate2Fixed` uses it; `Evaluate2Fix` and `Evaluate2KingsOnly` compare the two evaluators. | not executed; high | Evaluators.Evaluate2 | Evaluators.Evaluate2Fixed |
