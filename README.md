# Queen Battle in Dafny

Queen Battle is a two-player board game on a board of `width` by `height`
squares, each at most 10. White and Black each own some queens. A move
takes one of the mover's queens any number of squares in one of the eight
queen directions, over empty squares only. The square it leaves is burned
and can never be entered again. A side with no legal move has lost.

This project models the game state and both agents of the Java
implementation:

- `QueenBattleState` holds the board, an incremental Zobrist hash, the
  move generator, the evaluation and the breadth-first territory count.
  It is modelled imperatively as the class `GameState.QueenBattleState`.
  The board is an `array2<int>` of size `(w + 1) x (h + 1)`. The two
  distance tables are `array2<int>`, and the BFS queue is an `array<int>`.
  A ghost `grid` mirrors the board. Every method is proved against the
  pure functions of `Board`, `Zobrist`, `MoveGen`, `Distances` and `Scoring`.
  `Reach` proves what the distances of the breadth-first search mean. A
  square's distance is 0 on the searching side's queens. Elsewhere it is
  the fewest queen moves over empty squares that reach the square from one
  of them, and it stays -1 exactly where no such chain of moves leads.
- `AlphaBetaAgent` runs negamax with alpha-beta pruning and a
  transposition table inside iterative deepening. The search plays and
  takes back moves on the agent's one state. It is modelled as the class
  `Agents.AlphaBetaAgent`. Each method is proved to leave exactly what
  the pure search of `SearchSpec` computes: the value, the table, the node
  counter and the chosen move. Each is also proved to hand the board and
  the hash back as it found them. `SearchSpec` is written over an abstract
  game. `Engine.Rules` instantiates it with the board's rules, and
  `Engine` proves that the moves the search picks are legal.
- `RandomAgent` alternates between playing a random legal move and
  passing. It is modelled as the class `Agents.RandomAgent`.
- The action strings `(play x1 y1 x2 y2)` and `noop` live in `Actions`.
  The round trip from a move to its string and back is proved there.

Piece codes are those of the source: `0` empty, `1` white, `2` black and
`-1` burned. Board coordinates run from 1. Row and column 0 exist in the
arrays, but no move generation or evaluation reads them.

## Model

| member | source | states |
|---|---|---|
| GameState.QueenBattleState.constructor | src/QueenBattleState.java:22-31 | the arrays have size (w+1) x (h+1) and a queue of 2wh+10 cells; the board is empty apart from the listed white queens and then the listed black queens; the hash is the XOR of their keys and equals the Zobrist hash of the board when no square is listed twice |
| GameState.QueenBattleState.PlaceAll | src/QueenBattleState.java:29-30 | placing a list of queens sets each listed square to the piece and folds each square's key into the hash, in list order |
| GameState.QueenBattleState.Blank | src/QueenBattleState.java:34-40 | the internal constructor yields an empty board of the given size with hash 0 |
| GameState.QueenBattleState.CloneState | src/QueenBattleState.java:43-50 | the copy is a fresh object with fresh arrays and the same size, board and hash, so later moves on either do not reach the other |
| GameState.QueenBattleState.CopyColumn | src/QueenBattleState.java:45-47 | one arraycopy of cloneState: column i of the copy equals the board's column i, and every other column of the copy is unchanged |
| GameState.QueenBattleState.ApplyMove | src/QueenBattleState.java:52-58 | the source square becomes burned and the destination gets the mover's piece; the hash is XORed with the three keys in source order; where the source holds the piece and the destination is empty, the hash stays the Zobrist hash of the board |
| GameState.QueenBattleState.RetractMove | src/QueenBattleState.java:60-66 | the queen goes back to the source and the destination empties; the hash is XORed with the three keys again, in reverse order; where the source is burned and the destination holds the piece, the hash invariant is kept |
| GameState.QueenBattleState.GetBurnedCount | src/QueenBattleState.java:68-76 | the result is the number of burned squares on the board |
| GameState.QueenBattleState.GetLegalMoves | src/QueenBattleState.java:78-97 | the result is exactly MoveGen.LegalMoves of the board and role, in the source's column, row, direction and distance order |
| GameState.QueenBattleState.ScanRay | src/QueenBattleState.java:86-91 | the distance loop yields the run of empty on-board squares in one direction, stopping at the first blocked one |
| GameState.QueenBattleState.Evaluate | src/QueenBattleState.java:99-110 | the result is Scoring.Evaluation of the board for the role |
| GameState.QueenBattleState.CalculateBFSTerritory | src/QueenBattleState.java:112-134 | after resetting both distance tables and running both searches, the result is Distances.Territory of the board |
| GameState.QueenBattleState.CountClaims | src/QueenBattleState.java:123-133 | with both tables filled by the searches, the count is the number of empty squares White reaches strictly first minus those Black reaches strictly first |
| GameState.QueenBattleState.Bfs | src/QueenBattleState.java:136-167 | from a table of -1s, every on-board square ends with the distance Distances.Bfs assigns, whose meaning the Reach rows state: 0 on the player's queens, otherwise the fewest queen moves that reach the square, and -1 exactly where no chain of queen moves leads |
| GameState.QueenBattleState.Seed | src/QueenBattleState.java:138-146 | the seeding loops queue every queen of the player in column and row order, each at distance 0 |
| GameState.QueenBattleState.DrainQueue | src/QueenBattleState.java:149-166 | the queue loop leaves the tables as Distances.Drain leaves the search state it started from |
| GameState.QueenBattleState.ExpandSquare | src/QueenBattleState.java:154-165 | expanding a dequeued square runs the eight direction rays in source order, as Distances.ExpandDirs does, giving each newly reached empty square distance d + 1 and queueing it; the queue only grows |
| GameState.QueenBattleState.GetHash | src/QueenBattleState.java:174 | the result is the Zobrist hash of the board whenever the hash invariant holds |
| Board.RetractUndoesApply | src/QueenBattleState.java:52-66 | retracting a move applied to a board where the source holds the piece and the destination is empty restores that board |
| Board.ApplyUndoesRetract | src/QueenBattleState.java:52-66 | applying a retracted move restores the board again |
| Board.CountBound | src/QueenBattleState.java:68-76 | a count of squares lies between 0 and width * height |
| Board.CountSet | src/QueenBattleState.java:68-76 | writing one square changes a count by exactly that square's contribution |
| Board.ApplyBurnsOne | src/QueenBattleState.java:52-76 | a move raises the burned count by one and its retraction lowers it back |
| Bitwise.XorUndo | src/QueenBattleState.java:54-64 | XORing the three keys of applyMove and then those of retractMove leaves any hash unchanged |
| Bitwise.XorWord | src/QueenBattleState.java:6 | the XOR of two 64-bit patterns is a 64-bit pattern |
| Zobrist.HashOf | src/QueenBattleState.java:6 | the Zobrist hash of a board computed from scratch is a 64-bit pattern, below 2^64 |
| Zobrist.ColumnsHash | src/QueenBattleState.java:6 | the XOR of the column hashes is below 2^64, as every key and every XOR of such values is |
| Zobrist.ApplyKeepsHash | src/QueenBattleState.java:52-58 | on a board where the source holds the piece and the destination is empty, applyMove's hash update equals the Zobrist hash of the new board |
| Zobrist.RetractKeepsHash | src/QueenBattleState.java:60-66 | on a board where the source is burned and the destination holds the piece, retractMove's update equals the hash of the restored board |
| Zobrist.RetractRestoresHash | src/QueenBattleState.java:52-66 | retractMove's hash update undoes applyMove's for any hash |
| Zobrist.HashOfSet | src/QueenBattleState.java:52-66 | writing one square changes the Zobrist hash by the XOR of the old and the new key of that square |
| Zobrist.EmptyHash | src/QueenBattleState.java:34-40 | the empty board hashes to 0 |
| Zobrist.PlaceKeepsHash | src/QueenBattleState.java:29-30 | placing distinct queens on empty squares keeps the hash equal to the Zobrist hash of the board |
| Zobrist.InitialHash | src/QueenBattleState.java:22-31 | the constructor's hash is the Zobrist hash of the initial board when no square is listed twice |
| MoveGen.LegalMovesSound | src/QueenBattleState.java:78-97 | every generated move starts on a square holding the role's piece and moves along one of the eight rays to an empty on-board square, over empty on-board squares only |
| MoveGen.LegalMovesComplete | src/QueenBattleState.java:78-97 | every move that is legal by the rules is generated |
| MoveGen.LegalMovesExact | src/QueenBattleState.java:78-97 | a move is generated if and only if it is legal by the rules |
| MoveGen.LegalMoveEnds | src/QueenBattleState.java:84-89 | a generated move starts on the role's piece and ends on an empty on-board square |
| MoveGen.RayFromOpen | src/QueenBattleState.java:86-89 | an open square at distance k is the next move of the ray, and k is at most 10 |
| MoveGen.RayFromBlocked | src/QueenBattleState.java:88-90 | a blocked or off-board square ends the ray |
| MoveGen.LegalMovesOrdered | src/QueenBattleState.java:82-91 | the moves come in ascending source column, then source row, then direction, then distance order, and no move appears twice |
| MoveGen.DestinationsOnBoard | src/QueenBattleTest.java:44-46 | no generated destination lies outside 1..width by 1..height |
| MoveGen.DiagonalToCorner | src/QueenBattleTest.java:32-50 | with White on (2,2) and Black on (4,1) of a 4x4 board, White can move diagonally to (4,4) |
| MoveGen.NoJumpOverBurned | src/QueenBattleTest.java:53-66 | with (1,2) burned, White on (1,1) cannot reach (1,3) |
| Distances.BfsFacts | src/QueenBattleState.java:136-167 | the queue never holds a square twice and holds at most width * height squares; every distance is -1 or at least 0; the player's queens are at 0 |
| Distances.Queued | src/QueenBattleState.java:157-162 | a square the search has reached has a distance of at least 0 |
| Distances.SeedUpToFacts | src/QueenBattleState.java:138-146 | after seeding, exactly the player's queens carry distance 0 and every other square is unreached |
| Distances.DrainGrows | src/QueenBattleState.java:149-166 | draining the queue keeps the search state consistent and never changes a distance once it is set |
| Reach.ExpandDirsSees | src/QueenBattleState.java:154-165 | expanding a square reaches every square one queen move away from it, over empty on-board squares, in any of the eight directions |
| Reach.ExpandDirsValue | src/QueenBattleState.java:158-161 | a square that expanding a square at distance d newly reaches gets exactly d + 1 |
| Reach.ExpandDirsSource | src/QueenBattleState.java:154-165 | a square that an expansion newly reaches is one queen move from the expanded square |
| Reach.ExpandDirsBounded | src/QueenBattleState.java:154-165 | if no distance exceeds d + 1 before expanding a square at distance d, none does after |
| Reach.NextOrdered | src/QueenBattleState.java:149-166 | after one turn of the queue loop, the queue from the next head on is in non-decreasing order of distance |
| Reach.NextBounded | src/QueenBattleState.java:149-166 | after one turn, no distance exceeds one more than that of the next square to expand |
| Reach.NextClosedAt | src/QueenBattleState.java:149-166 | after one turn, every square one queen move from an expanded square has a distance between 0 and one more than that square's |
| Reach.NextEarned | src/QueenBattleState.java:149-166 | after one turn, every distance is 0 on a square of the player, or one more than that of a square one queen move away |
| Reach.DrainKeeps | src/QueenBattleState.java:149-166 | whatever one turn of the queue loop preserves still holds when the queue runs empty |
| Reach.BfsMeaning | src/QueenBattleState.java:136-167 | when the search ends, every queued square is closed under queen moves and every distance is accounted for |
| Reach.BfsSeeded | src/QueenBattleState.java:138-146 | a square holding the player's queen ends with distance 0 |
| Reach.BfsClosed | src/QueenBattleState.java:149-166 | a square one queen move from a square at distance d is reached too, at a distance between 0 and d + 1 |
| Reach.BfsExplained | src/QueenBattleState.java:136-167 | every distance the search sets is at least 0; 0 only on a square of the player; a positive distance is one more than that of a square one queen move away |
| Reach.BfsChain | src/QueenBattleState.java:136-167 | the end of any chain of n queen moves over empty squares from a square of the player gets a distance between 0 and n |
| Reach.BfsPath | src/QueenBattleState.java:136-167 | a square at distance d is the end of a chain of exactly d queen moves from a square of the player; with BfsChain, the distance is the fewest queen moves and -1 is left exactly where no chain leads |
| Distances.TerritoryBound | src/QueenBattleState.java:123-133 | the territory lies between minus and plus the number of empty squares |
| Distances.ClaimSwap | src/QueenBattleState.java:126-129 | exchanging the two distance tables negates the claim count |
| Scoring.EvaluationSymmetric | src/QueenBattleState.java:99-110 | the evaluation for one role is the negation of the evaluation for the other |
| Scoring.EvaluationTerminal | src/QueenBattleState.java:103-105 | a side without moves facing one with moves scores -10000 and its opponent +10000; with no moves on either side the score is 0 |
| Scoring.EvaluationBound | src/QueenBattleState.java:107-109 | outside the terminal cases the score is bounded by 5 times the total move count plus 20 times the number of empty squares |
| Scoring.QuickScoreRange | src/QueenBattleState.java:169-172 | for an on-board destination the quick score lies in 15..20 and is 20 exactly at the centre square |
| MoveOrder.InsertPermutes | src/AlphaBetaAgent.java:77-81 | inserting a move into a list adds exactly that move |
| MoveOrder.OrderedSpec | src/AlphaBetaAgent.java:77-81 | the sorted list is a permutation of the moves, descending by score, and keeps moves of equal score in their original order, as a stable sort does |
| MoveOrder.OrderedMembers | src/AlphaBetaAgent.java:77-81 | sorting keeps the length and exactly the same members |
| SearchSpec.NegamaxLeaf | src/AlphaBetaAgent.java:103 | at depth 0 or below, a non-terminal node is worth its evaluation from the root player's side, negated on the opponent's turn |
| SearchSpec.NegamaxDraw | src/AlphaBetaAgent.java:102 | a node that evaluates to 0 is worth 0 at any depth |
| SearchSpec.WinsExpand | src/AlphaBetaAgent.java:102 | a node that evaluates to +-10000 is not cut off by the line-102 test and is expanded when depth remains |
| SearchSpec.NegamaxTable | src/AlphaBetaAgent.java:105-123 | a table entry at least as deep as the request is returned as is; otherwise the node's value is stored under its hash with the current depth |
| SearchSpec.NegamaxNoMoves | src/AlphaBetaAgent.java:109-124 | an expanded node whose mover has no moves is worth -10000 and is stored with that value |
| SearchSpec.NegamaxBounds | src/AlphaBetaAgent.java:97-125 | a search visits at least one node and never drops a table key; if every stored value is at least -10000 this stays so, and so does an expanded node's value |
| SearchSpec.SearchMovesBounds | src/AlphaBetaAgent.java:113-120 | the move loop's best value never falls below its start; a loop with a move left visits at least one node; no table key is dropped, and stored values stay at least -10000 |
| SearchSpec.RootLoopSpec | src/AlphaBetaAgent.java:86-94 | the root loop returns one of the root moves and visits at least one node per move |
| SearchSpec.RootSpec | src/AlphaBetaAgent.java:73-95 | startNegamax returns no move exactly when the role has none; otherwise it returns one of the role's moves and visits at least one node per move |
| SearchSpec.DeepenSpec | src/AlphaBetaAgent.java:44-59 | iterative deepening returns only a move of the role, and returns one whenever the role has a move; with no move it keeps its previous best; before depth 50 the last pass visits no node exactly when the role has no move |
| Engine.PlayLegal | src/AlphaBetaAgent.java:114-116 | a generated move is legal and lies in the array; playing it applies it to the board and the hash; retracting it restores both; it keeps the hash invariant |
| Engine.Undoable | src/AlphaBetaAgent.java:88-90 | for a generated move, retractMove restores both the board and the hash that applyMove changed |
| Engine.RootLegal | src/AlphaBetaAgent.java:73-95 | on the board's rules, the root search returns no move exactly when the role has no legal move, and otherwise a legal one |
| Engine.PlanLegal | src/AlphaBetaAgent.java:44-64 | on the board's rules, nextAction's deepening settles on no move exactly when the role has no legal move, and otherwise on a legal one; its last pass visits no node exactly when the role has no legal move |
| Engine.NoMovesLoses | src/AlphaBetaAgent.java:109-124 | with depth left and no usable table entry, a node whose mover is stuck while the other side can move is worth -10000 |
| Actions.IntRoundTrip | src/AlphaBetaAgent.java:66 | parsing the decimal text of any integer gives it back, and the text has no space |
| Actions.PlayActionParses | src/AlphaBetaAgent.java:66 | the action string of a move parses back to that move |
| Actions.NoopIsNotPlay | src/AlphaBetaAgent.java:70 | "noop" is not a play action, and no play action is "noop" |
| Agents.AlphaBetaAgent.Init | src/AlphaBetaAgent.java:17-29 | the agent keeps its role and play clock, builds the initial state, and starts with an empty table and no nodes |
| Agents.AlphaBetaAgent.EvaluateAt | src/AlphaBetaAgent.java:101 | s.evaluate(role) returns the game's evaluation of the current position and leaves the position unchanged |
| Agents.AlphaBetaAgent.HashAt | src/AlphaBetaAgent.java:105 | s.getHash() returns the game's hash of the current position |
| Agents.AlphaBetaAgent.MovesAt | src/AlphaBetaAgent.java:111 | s.getLegalMoves(cur) returns the game's moves of the mover at the current position |
| Agents.AlphaBetaAgent.PlayAt | src/AlphaBetaAgent.java:114 | applying a generated move leaves the state at the game's successor position |
| Agents.AlphaBetaAgent.UndoAt | src/AlphaBetaAgent.java:116 | retracting the move just played returns the state to the position before it |
| Agents.AlphaBetaAgent.Negamax | src/AlphaBetaAgent.java:97-125 | the value returned, the table and the node counter are those of SearchSpec.Negamax, and the board and hash are as before |
| Agents.AlphaBetaAgent.SearchAll | src/AlphaBetaAgent.java:113-120 | the move loop yields SearchSpec.SearchMoves's best value, table and node count, including the cut-off once alpha reaches beta |
| Agents.AlphaBetaAgent.SearchStep | src/AlphaBetaAgent.java:113-119 | one turn of the loop advances the loop's specification by one move or ends it at the cut-off |
| Agents.AlphaBetaAgent.Reply | src/AlphaBetaAgent.java:114-116 | play, search one ply shallower with the window negated, and take back: the result is the child's negamax value and the position is restored |
| Agents.AlphaBetaAgent.StartNegamax | src/AlphaBetaAgent.java:73-95 | the move returned, the table and the node counter are those of SearchSpec.Root on the sorted moves, and the position is unchanged |
| Agents.AlphaBetaAgent.RootAll | src/AlphaBetaAgent.java:86-93 | the root loop keeps the first move of the highest value, as SearchSpec.RootLoop does |
| Agents.AlphaBetaAgent.RootStep | src/AlphaBetaAgent.java:87-92 | one turn of the root loop advances SearchSpec.RootLoop by one move |
| Agents.AlphaBetaAgent.DeepenAll | src/AlphaBetaAgent.java:44-59 | the deepening loop yields SearchSpec.Deepen's best move, table and node count, and leaves the position unchanged |
| Agents.AlphaBetaAgent.ReplayLast | src/AlphaBetaAgent.java:32-35 | a lastMove of four or more entries is applied for the other role; any other lastMove leaves the position unchanged |
| Agents.AlphaBetaAgent.NextAction | src/AlphaBetaAgent.java:31-71 | after replaying the opponent's move, the table and node count are those of the deepening search; its best move is played and returned as an action string, or "noop" is returned with the position unchanged |
| Agents.RandomAgent.Init | src/RandomAgent.java:10-14 | the agent builds the initial state and has the turn exactly when it plays white |
| Agents.RandomAgent.ReplayLast | src/RandomAgent.java:17-20 | a given lastMove is applied for the other role |
| Agents.RandomAgent.PlayRandom | src/RandomAgent.java:22-32 | a move is played exactly when the role has a legal move, and it is one of them; otherwise "noop" is returned and nothing changes |
| Agents.RandomAgent.NextAction | src/RandomAgent.java:16-37 | off its turn the agent passes and takes the turn; on its turn it plays a legal move and hands the turn over, or passes and keeps the turn when it has no move |

## Left out

- Agents.AlphaBetaAgent.Negamax: the clock is not modelled. The model assumes the time limit (src/AlphaBetaAgent.java:37-38, 60-62, 87, 99, 127-129) never fires, and every contract of the search holds only under that assumption. The search runs on the agent's own state. A timeout unwinds between applyMove and retractMove (lines 88-90 and 114-116). Line 65 then applies the best move to a board that still holds the aborted line. So "the board and hash are as before" does not hold in the source after a timeout.
- Agents.AlphaBetaAgent.NextAction: the same clock assumption applies. Without it the deepening loop stops at depth 49 or when a pass visits no nodes.
- Agents.AlphaBetaAgent.NextAction: the node counter `nodes` (src/AlphaBetaAgent.java:9, reset at 45, incremented at 98) is a 32-bit Java `int`; here it is an unbounded integer. A pass of more than 2^31 - 1 nodes wraps it around, and a pass of exactly a multiple of 2^32 nodes leaves it at 0, so the exit at line 49 would fire although that pass visited nodes. The model never wraps, so it does not capture that early exit.
- SearchSpec.DeepenSpec: its facts that a pass visits at least one node, and that the last pass visits none exactly when the role has no move, hold for the unbounded counter only (see the line above).
- Engine.PlanLegal: "the last pass visits no node exactly when the role has no legal move" holds for the unbounded counter only, for the same reason.
- Logging and file I/O are not modelled: the log file, the console output and the node-rate arithmetic of src/AlphaBetaAgent.java:13, 21-28, 50, 57, 61, 67 and 131-137. Both agents' `cleanup` (src/AlphaBetaAgent.java:139-143, src/RandomAgent.java:39-42) only releases resources and is left out too.
- The Zobrist keys come from `java.util.Random(42)` (src/QueenBattleState.java:13-19). Here they are an arbitrary `KeyTable` of 64-bit words, fixed at construction. No proof depends on the key values.
- Agents.RandomAgent.PlayRandom: `random.nextInt` (src/RandomAgent.java:27) becomes an arbitrary choice of index. The contract says only that the move played is one of the legal moves.
- GameState.QueenBattleState.constructor: a queen position outside the `(w+1) x (h+1)` array is excluded by a precondition, since Java throws ArrayIndexOutOfBoundsException there. Sizes above 10 are excluded as well. The key table covers squares 0..10 only, so Java throws as soon as a queen stands or moves beyond it.
- GameState.QueenBattleState.ApplyMove: a square outside the array is excluded by a precondition. For such a square Java throws. When only the destination lies outside and its x is still at most 10, Java first XORs part of the hash, then throws at line 57. The same holds for RetractMove.
- Agents.AlphaBetaAgent.ReplayLast: a lastMove whose squares lie outside the array is excluded by a precondition, since Java throws there.
- Agents.RandomAgent.ReplayLast: a lastMove of fewer than four entries is excluded by a precondition. Java throws ArrayIndexOutOfBoundsException at src/RandomAgent.java:19 for it. A lastMove outside the array is excluded as for the other agent.
- Engine.Play: the game's play function maps a move outside the array to the unchanged position, where Java would throw. Only generated moves, which lie on the board, ever reach it from the agents.
- src/AlphaBetaAgent.java:78-79 calls `quickEvaluateMove(a, role)` with two arguments, but QueenBattleState declares only the one-argument version (src/QueenBattleState.java:169). The model sorts by the one-argument score, `Engine.Centrality`.
- The `long` hash is modelled as a natural-number bit pattern below 2^64 (the type `Bitwise.Word`, which the field `currentHash` has), with XOR defined bit by bit. Its wrap-around never arises, since XOR only mixes bits. Its sign is not modelled: only equality of hashes is ever used.
- src/QueenBattleTest.java:77 expects -100 for a boxed-in white queen. The code returns -10000 (src/QueenBattleState.java:104), as Scoring.EvaluationTerminal states. src/QueenBattleTest.java:100 expects a draw, 0, when four empty squares remain. The code scores that board by moves and territory. Neither test expectation is proved; the model follows the code.
- src/AlphaBetaAgent.java:102 cuts the search off at `Math.abs(score) == 100`, but a won or lost position evaluates to +-10000 (src/QueenBattleState.java:104-105). So the test never matches a decided position. It is modelled as written, and SearchSpec.WinsExpand states that such a position is still expanded. The search stays correct, because a side without moves gets -10000 from the empty move loop (Engine.NoMovesLoses). It is not corrected, because the agent's search is modelled as the code runs.
