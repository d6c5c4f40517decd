/** The board's instance of the search: a position is a board with the value
    of currentHash beside it, and the five calls the search makes are those of
    QueenBattleState. The lemmas here carry the search's general results over
    to the game: what the agent returns is a legal move, playing a generated
    move keeps the hash invariant and can be taken back, and a side left
    without a move is scored -10000. */
module Engine {
  import opened Board
  import opened MoveGen
  import opened Zobrist
  import opened Scoring
  import opened SearchSpec

  /** A board whose every index the key table covers. */
  type Sound = g: Grid | g.WellFormed() witness EmptyGrid(0, 0)

  /** What the search reads of a QueenBattleState: the board and currentHash. */
  datatype Position = Position(grid: Sound, hash: nat)

  /** applyMove on a position: the board and the hash change together. A move
      outside the array, which the Java code rejects with an exception, leaves
      the position as it is. */
  function Play(keys: KeyTable, p: Position, m: Move, role: string): Position {
    if MoveInArray(p.grid, m) then
      Position(Apply(p.grid, m, PieceOf(role)), ApplyHash(keys, p.hash, m, PieceOf(role)))
    else p
  }

  /** quickEvaluateMove of a board of the given size. */
  function Centrality(width: int, height: int): Move -> int {
    m => QuickScore(width, height, m)
  }

  /** evaluate, getLegalMoves, applyMove, getHash and quickEvaluateMove. */
  function Rules(keys: KeyTable): Game<Position> {
    Game((p: Position, role: string) => Evaluation(p.grid, role),
         (p: Position, role: string) => LegalMoves(p.grid, role),
         (p: Position, m: Move, role: string) => Play(keys, p, m, role),
         (p: Position) => p.hash,
         (p: Position) => Centrality(p.grid.width, p.grid.height))
  }

  /** A game that, at position p, makes the five calls of the board's game. */
  ghost predicate Faithful(game: Game<Position>, keys: KeyTable, p: Position) {
    && (forall role :: game.eval(p, role) == Evaluation(p.grid, role))
    && (forall role :: game.moves(p, role) == LegalMoves(p.grid, role))
    && (forall m, role :: game.play(p, m, role) == Play(keys, p, m, role))
    && game.hash(p) == p.hash
    && game.quick(p) == Centrality(p.grid.width, p.grid.height)
  }

  /** The board's game is faithful everywhere. */
  lemma RulesFaithful(keys: KeyTable, p: Position)
    ensures Faithful(Rules(keys), keys, p)
  {
  }

  /** The hash invariant on a position. */
  predicate Consistent(keys: KeyTable, p: Position) {
    p.hash == HashOf(keys, p.grid)
  }

  /** A generated move is legal and inside the array; playing it applies it to
      the board, retracting it restores board and hash, and the hash invariant
      carries over to the new position. */
  lemma PlayLegal(keys: KeyTable, p: Position, m: Move, role: string)
    requires m in LegalMoves(p.grid, role)
    ensures IsLegal(p.grid, PieceOf(role), m) && MoveInArray(p.grid, m)
    ensures Play(keys, p, m, role).grid == Apply(p.grid, m, PieceOf(role))
    ensures Play(keys, p, m, role).hash == ApplyHash(keys, p.hash, m, PieceOf(role))
    ensures Retract(Play(keys, p, m, role).grid, m, PieceOf(role)) == p.grid
    ensures RetractHash(keys, Play(keys, p, m, role).hash, m, PieceOf(role)) == p.hash
    ensures Consistent(keys, p) ==> Consistent(keys, Play(keys, p, m, role))
  {
    Undoable(keys, p, m, role);
    LegalMovesExact(p.grid, role, m);
    if Consistent(keys, p) {
      ApplyKeepsHash(keys, p.grid, m, PieceOf(role));
    }
  }

  /** What the agents need to play and take back a generated move: it lies in
      the array, playing it applies it, and retracting restores board and hash. */
  lemma Undoable(keys: KeyTable, p: Position, m: Move, role: string)
    requires m in LegalMoves(p.grid, role)
    ensures MoveInArray(p.grid, m)
    ensures Play(keys, p, m, role) == Position(Apply(p.grid, m, PieceOf(role)), ApplyHash(keys, p.hash, m, PieceOf(role)))
    ensures Retract(Apply(p.grid, m, PieceOf(role)), m, PieceOf(role)) == p.grid
    ensures RetractHash(keys, ApplyHash(keys, p.hash, m, PieceOf(role)), m, PieceOf(role)) == p.hash
  {
    LegalMoveEnds(p.grid, role, m);
    RetractUndoesApply(p.grid, m, PieceOf(role));
    RetractRestoresHash(keys, p.hash, m, PieceOf(role));
  }

  /** startNegamax on the board returns null exactly when the role has no
      legal move, and otherwise a legal move of the role. */
  lemma RootLegal(game: Game<Position>, keys: KeyTable, role: string, p: Position, depth: int, tt: Table, nodes: int)
    requires Faithful(game, keys, p)
    ensures var r := Root(game, role, p, depth, tt, nodes);
            && (r.move == None <==> LegalMoves(p.grid, role) == [])
            && (r.move != None ==> r.move.value in LegalMoves(p.grid, role))
            && (r.move != None ==> IsLegal(p.grid, PieceOf(role), r.move.value))
  {
    var r := Root(game, role, p, depth, tt, nodes);
    RootSpec(game, role, p, depth, tt, nodes);
    if r.move != None {
      LegalMovesExact(p.grid, role, r.move.value);
    }
  }

  /** The deepening loop of nextAction, from depth 1, no best move and a
      cleared table, settles on no move exactly when the role has no legal
      move, and otherwise on a legal move; its last pass counts no node
      exactly when the role has no legal move. */
  lemma PlanLegal(game: Game<Position>, keys: KeyTable, role: string, p: Position, nodes: int)
    requires Faithful(game, keys, p)
    ensures var r := Deepen(game, role, p, 1, None, map[], nodes);
            && (r.best == None <==> LegalMoves(p.grid, role) == [])
            && (r.best != None ==> r.best.value in LegalMoves(p.grid, role))
            && (r.best != None ==> IsLegal(p.grid, PieceOf(role), r.best.value))
            && (r.nodes == 0 <==> LegalMoves(p.grid, role) == [])
  {
    var r := Deepen(game, role, p, 1, None, map[], nodes);
    DeepenSpec(game, role, p, 1, None, map[], nodes);
    if r.best != None {
      LegalMovesExact(p.grid, role, r.best.value);
    }
  }

  /** A node whose side to move has no legal move while the other side has
      one evaluates to +-10000, so it is expanded; with depth left and no
      usable table entry it is worth exactly -10000 to the side to move. */
  lemma NoMovesLoses(keys: KeyTable, role: string, p: Position, depth: int, alpha: int, beta: int,
                     isMe: bool, tt: Table, nodes: int)
    requires depth > 0 && !(p.hash in tt && tt[p.hash].depth >= depth)
    requires LegalMoves(p.grid, Mover(role, isMe)) == []
    requires LegalMoves(p.grid, Opponent(Mover(role, isMe))) != []
    ensures Negamax(Rules(keys), role, p, depth, alpha, beta, isMe, tt, nodes).value == -Bound
  {
    var cur := Mover(role, isMe);
    EvaluationTerminal(p.grid, cur);
    EvaluationSymmetric(p.grid, role);
    assert Abs(Evaluation(p.grid, role)) == Win;
    NegamaxNoMoves(Rules(keys), role, p, depth, alpha, beta, isMe, tt, nodes);
  }

  /** The move an int[] lastMove of at least four entries stands for. */
  function LastMove(l: seq<int>): Move
    requires |l| >= 4
  {
    Move(l[0], l[1], l[2], l[3])
  }

  /** The opening of nextAction: a lastMove of at least four entries is the
      other role's move and is played on the position. */
  function Replay(keys: KeyTable, p: Position, lastMove: Option<seq<int>>, role: string): Position {
    if lastMove != None && |lastMove.value| >= 4 then Play(keys, p, LastMove(lastMove.value), Opponent(role))
    else p
  }
}
