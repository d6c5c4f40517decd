/** The search of AlphaBetaAgent as functions: negamax with alpha-beta
    pruning and a transposition table, the root search over the sorted moves,
    and the iterative-deepening loop of nextAction. Each function threads what
    the agent's fields carry from call to call, the table tt and the node
    counter. The search sees the position only through the five calls it makes
    on QueenBattleState, collected in a Game; Engine supplies the board's. */
module SearchSpec {
  import opened Board
  import opened MoveOrder

  /** What the search calls on a position P: evaluate(role),
      getLegalMoves(role), the position after applyMove(m, role), getHash()
      and quickEvaluateMove(m). */
  datatype Game<!P> = Game(
    eval: (P, string) -> int,
    moves: (P, string) -> seq<Move>,
    play: (P, Move, string) -> P,
    hash: P -> nat,
    quick: P -> Move -> int)

  /** The initial alpha and best value -10000, and the initial beta 10000. */
  const Bound := 10000

  /** The deepening loop runs while depth < 50. */
  const MaxDepth := 50

  /** A table entry: the value found and the depth it was searched to. */
  datatype Entry = Entry(val: int, depth: int)

  /** tt, keyed by the bit pattern of the long hash. */
  type Table = map<nat, Entry>

  /** What a call of negamax (or its move loop) leaves behind: its value,
      the table and the node counter. */
  datatype Outcome = Outcome(value: int, tt: Table, nodes: int)

  /** What startNegamax leaves behind: the move it returns (None for null),
      the table and the node counter. */
  datatype RootOutcome = RootOutcome(move: Option<Move>, tt: Table, nodes: int)

  /** What the deepening loop leaves behind: best, the table and the node
      counter of its last pass. */
  datatype Plan = Plan(best: Option<Move>, tt: Table, nodes: int)

  /** The role to move at a node: the agent's own at its nodes, the other
      colour at the opponent's. */
  function Mover(role: string, isMe: bool): string {
    if isMe then role else Opponent(role)
  }

  /** negamax(s, depth, alpha, beta, isMe): count the node; return the
      evaluation, negated at the opponent's nodes, when it is 0 or +-100 or
      the depth is used up; return a stored value searched at least as deep;
      otherwise search the moves of the side to move and store the result.
      The evaluation is always taken from the agent's own role. */
  function Negamax<P>(game: Game<P>, role: string, pos: P, depth: int, alpha: int, beta: int,
                      isMe: bool, tt: Table, nodes: int): Outcome
    decreases depth, 1
  {
    var n := nodes + 1;
    var score := game.eval(pos, role);
    var h := game.hash(pos);
    if Abs(score) == 100 || score == 0 then Outcome(if isMe then score else -score, tt, n)
    else if depth <= 0 then Outcome(if isMe then score else -score, tt, n)
    else if h in tt && tt[h].depth >= depth then Outcome(tt[h].val, tt, n)
    else
      var cur := Mover(role, isMe);
      var r := SearchMoves(game, role, pos, game.moves(pos, cur), 0, depth, alpha, beta, isMe, -Bound, tt, n);
      Outcome(r.value, r.tt[h := Entry(r.value, depth)], r.nodes)
  }

  /** The `for (int[] m : moves)` loop of negamax from the i-th move on: play
      the move, search the reply with the window negated and swapped, and stop
      as soon as alpha reaches beta. */
  function SearchMoves<P>(game: Game<P>, role: string, pos: P, moves: seq<Move>, i: int, depth: int,
                          alpha: int, beta: int, isMe: bool, bestV: int, tt: Table, nodes: int): Outcome
    requires 0 <= i <= |moves| && depth > 0
    decreases depth, 0, |moves| - i
  {
    if i == |moves| then Outcome(bestV, tt, nodes)
    else
      var r := Negamax(game, role, game.play(pos, moves[i], Mover(role, isMe)), depth - 1, -beta, -alpha, !isMe, tt, nodes);
      var best := Max(-r.value, bestV);
      var a := Max(alpha, best);
      if a >= beta then Outcome(best, r.tt, r.nodes)
      else SearchMoves(game, role, pos, moves, i + 1, depth, a, beta, isMe, best, r.tt, r.nodes)
  }

  /** The root's moves: the legal moves of the agent's role, best
      quickEvaluateMove first. */
  function RootMoves<P>(game: Game<P>, role: string, pos: P): seq<Move> {
    Ordered(game.quick(pos), game.moves(pos, role))
  }

  /** startNegamax(s, depth): null without a legal move; otherwise every
      root move is searched with beta 10000 and alpha raised to the best value
      so far, and the first move of the highest value is returned. */
  function Root<P>(game: Game<P>, role: string, pos: P, depth: int, tt: Table, nodes: int): RootOutcome {
    var moves := RootMoves(game, role, pos);
    if moves == [] then RootOutcome(None, tt, nodes)
    else RootLoop(game, role, pos, moves, 0, depth, -Bound, -Bound, moves[0], tt, nodes)
  }

  /** The `for (int[] m : moves)` loop of startNegamax from the i-th move on. */
  function RootLoop<P>(game: Game<P>, role: string, pos: P, moves: seq<Move>, i: int, depth: int,
                       alpha: int, bestV: int, best: Move, tt: Table, nodes: int): RootOutcome
    requires 0 <= i <= |moves|
    decreases |moves| - i
  {
    if i == |moves| then RootOutcome(Some(best), tt, nodes)
    else
      var r := Negamax(game, role, game.play(pos, moves[i], role), depth - 1, -Bound, -alpha, false, tt, nodes);
      var v := -r.value;
      var bestV', best' := if v > bestV then v else bestV, if v > bestV then moves[i] else best;
      RootLoop(game, role, pos, moves, i + 1, depth, Max(alpha, bestV'), bestV', best', r.tt, r.nodes)
  }

  /** The `while (depth < 50)` loop of nextAction from depth on: each pass
      resets the node counter and searches the root; a pass at a depth above 1
      that visits no node ends the loop; otherwise a non-null result becomes
      best and the depth goes up by one. */
  function Deepen<P>(game: Game<P>, role: string, pos: P, depth: int, best: Option<Move>,
                     tt: Table, nodes: int): Plan
    decreases MaxDepth - depth
  {
    if depth >= MaxDepth then Plan(best, tt, nodes)
    else
      var r := Root(game, role, pos, depth, tt, 0);
      if r.nodes == 0 && depth > 1 then Plan(best, r.tt, r.nodes)
      else Deepen(game, role, pos, depth + 1, if r.move != None then r.move else best, r.tt, r.nodes)
  }

  /** One turn of negamax's move loop, given the position after the move and
      the value of the reply. */
  lemma SearchMovesStep<P>(game: Game<P>, role: string, pos: P, moves: seq<Move>, i: int, depth: int,
                           alpha: int, beta: int, isMe: bool, bestV: int, tt: Table, nodes: int, child: P, r: Outcome)
    requires 0 <= i < |moves| && depth > 0
    requires child == game.play(pos, moves[i], Mover(role, isMe))
    requires r == Negamax(game, role, child, depth - 1, -beta, -alpha, !isMe, tt, nodes)
    ensures var best := Max(-r.value, bestV);
            SearchMoves(game, role, pos, moves, i, depth, alpha, beta, isMe, bestV, tt, nodes) ==
            if Max(alpha, best) >= beta then Outcome(best, r.tt, r.nodes)
            else SearchMoves(game, role, pos, moves, i + 1, depth, Max(alpha, best), beta, isMe, best, r.tt, r.nodes)
  {
  }

  /** One turn of startNegamax's move loop, given the position after the move
      and the value of the reply. */
  lemma RootLoopStep<P>(game: Game<P>, role: string, pos: P, moves: seq<Move>, i: int, depth: int,
                        alpha: int, bestV: int, best: Move, tt: Table, nodes: int, child: P, r: Outcome)
    requires 0 <= i < |moves|
    requires child == game.play(pos, moves[i], role)
    requires r == Negamax(game, role, child, depth - 1, -Bound, -alpha, false, tt, nodes)
    ensures var bestV', best' := if -r.value > bestV then -r.value else bestV, if -r.value > bestV then moves[i] else best;
            RootLoop(game, role, pos, moves, i, depth, alpha, bestV, best, tt, nodes) ==
            RootLoop(game, role, pos, moves, i + 1, depth, Max(alpha, bestV'), bestV', best', r.tt, r.nodes)
  {
  }

  // ---------------------------------------------------------------------
  // The leaf, cut-off and table rules of negamax.

  /** At depth 0 or below, negamax returns the evaluation, negated at the
      opponent's nodes, and leaves the table alone. */
  lemma NegamaxLeaf<P>(game: Game<P>, role: string, pos: P, depth: int, alpha: int, beta: int,
                       isMe: bool, tt: Table, nodes: int)
    requires depth <= 0
    ensures Negamax(game, role, pos, depth, alpha, beta, isMe, tt, nodes) ==
            Outcome(if isMe then game.eval(pos, role) else -game.eval(pos, role), tt, nodes + 1)
  {
  }

  /** An evaluation of 0 is returned at once, at any depth. */
  lemma NegamaxDraw<P>(game: Game<P>, role: string, pos: P, depth: int, alpha: int, beta: int,
                       isMe: bool, tt: Table, nodes: int)
    requires game.eval(pos, role) == 0
    ensures Negamax(game, role, pos, depth, alpha, beta, isMe, tt, nodes) == Outcome(0, tt, nodes + 1)
  {
  }

  /** A node that is neither cut off nor at the depth limit. */
  predicate Expands<P>(game: Game<P>, role: string, pos: P, depth: int) {
    Abs(game.eval(pos, role)) != 100 && game.eval(pos, role) != 0 && depth > 0
  }

  /** The cut-off compares with 100 while a decided position evaluates to
      +-10000: a won or lost node with depth left is expanded like any other. */
  lemma WinsExpand<P>(game: Game<P>, role: string, pos: P, depth: int)
    requires Abs(game.eval(pos, role)) == 10000 && depth > 0
    ensures Expands(game, role, pos, depth)
  {
  }

  /** A table hit needs an entry for the hash searched at least as deep; it
      returns the stored value and leaves the table alone. Without a hit the
      node stores its value and depth under its hash. */
  lemma NegamaxTable<P>(game: Game<P>, role: string, pos: P, depth: int, alpha: int, beta: int,
                        isMe: bool, tt: Table, nodes: int)
    requires Expands(game, role, pos, depth)
    ensures var h, r := game.hash(pos), Negamax(game, role, pos, depth, alpha, beta, isMe, tt, nodes);
            if h in tt && tt[h].depth >= depth then r == Outcome(tt[h].val, tt, nodes + 1)
            else h in r.tt && r.tt[h] == Entry(r.value, depth)
  {
  }

  /** Without a move for the side to move, an expanded node that misses the
      table is worth exactly -10000, and that value is stored. */
  lemma NegamaxNoMoves<P>(game: Game<P>, role: string, pos: P, depth: int, alpha: int, beta: int,
                          isMe: bool, tt: Table, nodes: int)
    requires Expands(game, role, pos, depth) && !(game.hash(pos) in tt && tt[game.hash(pos)].depth >= depth)
    requires game.moves(pos, Mover(role, isMe)) == []
    ensures Negamax(game, role, pos, depth, alpha, beta, isMe, tt, nodes) ==
            Outcome(-Bound, tt[game.hash(pos) := Entry(-Bound, depth)], nodes + 1)
  {
  }

  // ---------------------------------------------------------------------
  // Bounds kept by the whole search.

  /** Every stored value is at least -10000. */
  ghost predicate TableAbove(tt: Table) {
    forall k :: k in tt ==> tt[k].val >= -Bound
  }

  /** negamax counts itself and never drops a table entry; from a table whose
      values are at least -10000 it stores only such values, and an expanded
      node is worth at least -10000. */
  lemma {:induction false} NegamaxBounds<P>(game: Game<P>, role: string, pos: P, depth: int, alpha: int,
                                            beta: int, isMe: bool, tt: Table, nodes: int)
    ensures var r := Negamax(game, role, pos, depth, alpha, beta, isMe, tt, nodes);
            && r.nodes >= nodes + 1 && tt.Keys <= r.tt.Keys
            && (TableAbove(tt) ==> TableAbove(r.tt) && (Expands(game, role, pos, depth) ==> r.value >= -Bound))
    decreases depth, 1
  {
    var h := game.hash(pos);
    if Expands(game, role, pos, depth) && !(h in tt && tt[h].depth >= depth) {
      var cur := Mover(role, isMe);
      SearchMovesBounds(game, role, pos, game.moves(pos, cur), 0, depth, alpha, beta, isMe, -Bound, tt, nodes + 1);
    }
  }

  /** The move loop only raises the best value, counts a node per move it
      searches and never drops a table entry; from a table whose values are
      at least -10000 it stores only such values. */
  lemma {:induction false} SearchMovesBounds<P>(game: Game<P>, role: string, pos: P, moves: seq<Move>, i: int,
                                                depth: int, alpha: int, beta: int, isMe: bool, bestV: int,
                                                tt: Table, nodes: int)
    requires 0 <= i <= |moves| && depth > 0
    ensures var r := SearchMoves(game, role, pos, moves, i, depth, alpha, beta, isMe, bestV, tt, nodes);
            && r.value >= bestV && r.nodes >= nodes + (if i < |moves| then 1 else 0)
            && tt.Keys <= r.tt.Keys && (TableAbove(tt) ==> TableAbove(r.tt))
    decreases depth, 0, |moves| - i
  {
    if i < |moves| {
      var child := game.play(pos, moves[i], Mover(role, isMe));
      var r := Negamax(game, role, child, depth - 1, -beta, -alpha, !isMe, tt, nodes);
      NegamaxBounds(game, role, child, depth - 1, -beta, -alpha, !isMe, tt, nodes);
      var best := Max(-r.value, bestV);
      var a := Max(alpha, best);
      if a < beta {
        SearchMovesBounds(game, role, pos, moves, i + 1, depth, a, beta, isMe, best, r.tt, r.nodes);
      }
    }
  }

  // ---------------------------------------------------------------------
  // startNegamax and the deepening loop.

  /** The root loop returns one of its moves (the first one it started with
      or a later one) and counts at least one node per move it searches. */
  lemma {:induction false} RootLoopSpec<P>(game: Game<P>, role: string, pos: P, moves: seq<Move>, i: int,
                                           depth: int, alpha: int, bestV: int, best: Move, tt: Table, nodes: int)
    requires 0 <= i <= |moves| && best in moves
    ensures var r := RootLoop(game, role, pos, moves, i, depth, alpha, bestV, best, tt, nodes);
            r.move != None && r.move.value in moves && r.nodes >= nodes + (|moves| - i)
    decreases |moves| - i
  {
    if i < |moves| {
      var r := Negamax(game, role, game.play(pos, moves[i], role), depth - 1, -Bound, -alpha, false, tt, nodes);
      NegamaxBounds(game, role, game.play(pos, moves[i], role), depth - 1, -Bound, -alpha, false, tt, nodes);
      var v := -r.value;
      var bestV', best' := if v > bestV then v else bestV, if v > bestV then moves[i] else best;
      RootLoopSpec(game, role, pos, moves, i + 1, depth, Max(alpha, bestV'), bestV', best', r.tt, r.nodes);
    }
  }

  /** startNegamax returns null exactly when the role has no legal move, and
      otherwise one of its legal moves, after searching at least one node per
      move. */
  lemma RootSpec<P>(game: Game<P>, role: string, pos: P, depth: int, tt: Table, nodes: int)
    ensures var r := Root(game, role, pos, depth, tt, nodes);
            && (r.move == None <==> game.moves(pos, role) == [])
            && (r.move != None ==> r.move.value in game.moves(pos, role))
            && (game.moves(pos, role) == [] ==> r == RootOutcome(None, tt, nodes))
            && (game.moves(pos, role) != [] ==> r.nodes >= nodes + |game.moves(pos, role)|)
  {
    var moves := RootMoves(game, role, pos);
    OrderedMembers(game.quick(pos), game.moves(pos, role));
    if moves != [] {
      assert moves[0] in moves;
      RootLoopSpec(game, role, pos, moves, 0, depth, -Bound, -Bound, moves[0], tt, nodes);
    } else {
      assert |game.moves(pos, role)| == 0;
    }
  }

  /** The deepening loop keeps best null or a legal move. With a legal move
      and a depth to go it ends with one and with a last pass that counted
      nodes; without one it leaves best alone, and every pass counts no node.
      So the loop's early exit fires exactly when the role cannot move. */
  lemma {:induction false} DeepenSpec<P>(game: Game<P>, role: string, pos: P, depth: int, best: Option<Move>,
                                         tt: Table, nodes: int)
    requires depth >= 1 && (best != None ==> best.value in game.moves(pos, role))
    ensures var r := Deepen(game, role, pos, depth, best, tt, nodes);
            && (r.best != None ==> r.best.value in game.moves(pos, role))
            && (game.moves(pos, role) != [] && depth < MaxDepth ==> r.best != None && r.nodes > 0)
            && (game.moves(pos, role) == [] ==> r.best == best)
            && (depth < MaxDepth ==> (r.nodes == 0 <==> game.moves(pos, role) == []))
    decreases MaxDepth - depth
  {
    if depth < MaxDepth {
      var r := Root(game, role, pos, depth, tt, 0);
      RootSpec(game, role, pos, depth, tt, 0);
      if !(r.nodes == 0 && depth > 1) {
        DeepenSpec(game, role, pos, depth + 1, if r.move != None then r.move else best, r.tt, r.nodes);
      }
    }
  }
}
