/** The two agents. AlphaBetaAgent runs negamax with alpha-beta pruning and
    a transposition table inside iterative deepening, playing and taking back
    moves on its one QueenBattleState; each of its methods is proved to leave
    behind exactly what the functions of SearchSpec compute on the position
    of that state, and to hand the board and hash back as it found them.
    RandomAgent alternates between playing a random legal move and passing. */
module Agents {
  import opened Board
  import opened MoveGen
  import opened Zobrist
  import opened SearchSpec
  import opened Engine
  import opened GameState
  import opened Actions
  import opened MoveOrder

  class AlphaBetaAgent {
    const role: string
    const playclock: int
    const state: QueenBattleState
    var nodes: int
    var tt: Table
    /** The game the search runs on: the board's game over the state's key table. */
    ghost const game: Game<Position>

    ghost predicate Valid()
      reads state, state.board
    {
      && state.Valid()
      && forall p :: Faithful(game, state.keys, p)
    }

    /** The position of the state: its board and its currentHash. */
    ghost function Here(): Position
      requires Valid()
      reads state, state.board
    {
      Position(state.grid, state.currentHash)
    }

    /** init: the role, the play clock and a state with the initial queens. */
    constructor Init(role: string, width: int, height: int, playclock: int,
                     whitePos: seq<Cell>, blackPos: seq<Cell>, keys: KeyTable)
      requires 0 <= width <= 10 && 0 <= height <= 10
      requires forall k :: 0 <= k < |whitePos| ==> 0 <= whitePos[k].0 <= width && 0 <= whitePos[k].1 <= height
      requires forall k :: 0 <= k < |blackPos| ==> 0 <= blackPos[k].0 <= width && 0 <= blackPos[k].1 <= height
      ensures Valid() && fresh(state) && fresh(state.board)
      ensures fresh(state.dWhite) && fresh(state.dBlack) && fresh(state.qArr)
      ensures this.role == role && this.playclock == playclock && state.keys == keys
      ensures game == Rules(keys)
      ensures state.grid == InitialGrid(width, height, whitePos, blackPos)
      ensures Distinct(whitePos + blackPos) ==> state.HashConsistent()
      ensures nodes == 0 && tt == map[]
    {
      this.role := role;
      this.playclock := playclock;
      state := new QueenBattleState(width, height, whitePos, blackPos, keys);
      game := Rules(keys);
      nodes := 0;
      tt := map[];
      forall p: Position
        ensures Faithful(Rules(keys), keys, p)
      {
        RulesFaithful(keys, p);
      }
    }

    /** s.evaluate(role) at the current position. */
    method EvaluateAt(ghost p: Position, who: string) returns (score: int)
      requires Valid() && Here() == p
      modifies state.dWhite, state.dBlack, state.qArr
      ensures Valid() && Here() == p
      ensures score == game.eval(p, who)
    {
      assert Faithful(game, state.keys, p);
      score := state.Evaluate(who);
    }

    /** s.getHash() at the current position. */
    method HashAt(ghost p: Position) returns (h: nat)
      requires Valid() && Here() == p
      ensures h == game.hash(p)
    {
      assert Faithful(game, state.keys, p);
      h := state.GetHash();
    }

    /** s.getLegalMoves(mover) at the current position. */
    method MovesAt(ghost p: Position, mover: string) returns (moves: seq<Move>)
      requires Valid() && Here() == p
      ensures moves == game.moves(p, mover)
    {
      assert Faithful(game, state.keys, p);
      moves := state.GetLegalMoves(mover);
    }

    /** s.applyMove of a generated move. */
    method PlayAt(ghost p: Position, m: Move, mover: string)
      requires Valid() && Here() == p && m in game.moves(p, mover)
      modifies state, state.board
      ensures Valid() && Here() == game.play(p, m, mover)
    {
      assert Faithful(game, state.keys, p);
      Undoable(state.keys, p, m, mover);
      state.ApplyMove(m.x1, m.y1, m.x2, m.y2, mover);
    }

    /** s.retractMove of the move PlayAt played. */
    method UndoAt(ghost p: Position, m: Move, mover: string)
      requires Valid() && Here() == game.play(p, m, mover) && m in game.moves(p, mover)
      modifies state, state.board
      ensures Valid() && Here() == p
    {
      assert Faithful(game, state.keys, p);
      Undoable(state.keys, p, m, mover);
      state.RetractMove(m.x1, m.y1, m.x2, m.y2, mover);
    }

    /** negamax(s, depth, alpha, beta, isMe). */
    method Negamax(depth: int, alpha: int, beta: int, isMe: bool) returns (v: int)
      requires Valid()
      modifies this, state, state.board, state.dWhite, state.dBlack, state.qArr
      ensures Valid() && Here() == old(Here())
      ensures Outcome(v, tt, nodes) == SearchSpec.Negamax(game, role, old(Here()), depth, alpha, beta, isMe, old(tt), old(nodes))
      decreases depth, 3
    {
      ghost var pos := Here();
      nodes := nodes + 1;
      var score := EvaluateAt(pos, role);
      if Abs(score) == 100 || score == 0 {
        return if isMe then score else -score;
      }
      if depth <= 0 {
        return if isMe then score else -score;
      }
      var hash := HashAt(pos);
      if hash in tt && tt[hash].depth >= depth {
        return tt[hash].val;
      }
      var moves := MovesAt(pos, Mover(role, isMe));
      var bestV := SearchAll(pos, moves, depth, alpha, beta, isMe);
      tt := tt[hash := Entry(bestV, depth)];
      v := bestV;
    }

    /** The `for (int[] m : moves)` loop of negamax: search every move in
        turn, keep the best negated reply value, raise alpha to it, and stop
        once alpha reaches beta. */
    method SearchAll(ghost pos: Position, moves: seq<Move>, depth: int, alpha: int, beta: int, isMe: bool)
      returns (bestV: int)
      requires Valid() && Here() == pos && depth > 0
      requires moves == game.moves(pos, Mover(role, isMe))
      modifies this, state, state.board, state.dWhite, state.dBlack, state.qArr
      ensures Valid() && Here() == pos
      ensures Outcome(bestV, tt, nodes) ==
              SearchMoves(game, role, pos, moves, 0, depth, alpha, beta, isMe, -Bound, old(tt), old(nodes))
      decreases depth, 2
    {
      bestV := -Bound;
      ghost var goal := SearchMoves(game, role, pos, moves, 0, depth, alpha, beta, isMe, -Bound, tt, nodes);
      var a := alpha;
      var i := 0;
      while i < |moves|
        invariant 0 <= i <= |moves|
        invariant Valid() && Here() == pos
        invariant SearchMoves(game, role, pos, moves, i, depth, a, beta, isMe, bestV, tt, nodes) == goal
        decreases |moves| - i
      {
        var stop;
        a, bestV, stop := SearchStep(pos, moves, i, depth, a, beta, isMe, bestV, goal);
        if stop {
          return;
        }
        i := i + 1;
      }
    }

    /** One turn of negamax's move loop: play the move for the side to move,
        search the reply one ply shallower, take the move back, keep the best
        negated reply value, raise alpha to it, and stop once alpha reaches
        beta. */
    method SearchStep(ghost pos: Position, moves: seq<Move>, i: int, depth: int, alpha: int, beta: int,
                      isMe: bool, bestV: int, ghost goal: Outcome)
      returns (a: int, best: int, stop: bool)
      requires Valid() && Here() == pos && depth > 0 && 0 <= i < |moves|
      requires moves == game.moves(pos, Mover(role, isMe))
      requires SearchMoves(game, role, pos, moves, i, depth, alpha, beta, isMe, bestV, tt, nodes) == goal
      modifies this, state, state.board, state.dWhite, state.dBlack, state.qArr
      ensures Valid() && Here() == pos
      ensures stop ==> Outcome(best, tt, nodes) == goal
      ensures !stop ==> SearchMoves(game, role, pos, moves, i + 1, depth, a, beta, isMe, best, tt, nodes) == goal
      decreases depth, 1
    {
      var m := moves[i];
      ghost var tt1, n1 := tt, nodes;
      var r := Reply(pos, m, depth, alpha, beta, isMe);
      SearchMovesStep(game, role, pos, moves, i, depth, alpha, beta, isMe, bestV, tt1, n1,
                      game.play(pos, m, Mover(role, isMe)), Outcome(r, tt, nodes));
      best := Max(-r, bestV);
      a := Max(alpha, best);
      stop := a >= beta;
    }

    /** The body of negamax's move loop: play the move for the side to move,
        search the reply one ply shallower with the window negated, and take
        the move back. */
    method Reply(ghost pos: Position, m: Move, depth: int, alpha: int, beta: int, isMe: bool)
      returns (r: int)
      requires Valid() && Here() == pos && depth > 0 && m in game.moves(pos, Mover(role, isMe))
      modifies this, state, state.board, state.dWhite, state.dBlack, state.qArr
      ensures Valid() && Here() == pos
      ensures Outcome(r, tt, nodes) ==
              SearchSpec.Negamax(game, role, game.play(pos, m, Mover(role, isMe)), depth - 1, -beta, -alpha, !isMe, old(tt), old(nodes))
      decreases depth, 0
    {
      var mover := Mover(role, isMe);
      PlayAt(pos, m, mover);
      r := Negamax(depth - 1, -beta, -alpha, !isMe);
      UndoAt(pos, m, mover);
    }

    /** startNegamax(s, depth). The sort is Java's stable list sort, which the
        order it must produce determines: Ordered. */
    method StartNegamax(depth: int) returns (best: Option<Move>)
      requires Valid()
      modifies this, state, state.board, state.dWhite, state.dBlack, state.qArr
      ensures Valid() && Here() == old(Here())
      ensures RootOutcome(best, tt, nodes) == Root(game, role, old(Here()), depth, old(tt), old(nodes))
    {
      ghost var pos := Here();
      var moves := MovesAt(pos, role);
      if |moves| == 0 {
        return None;
      }
      ghost var legal := moves;
      moves := Ordered(Centrality(state.width, state.height), moves);
      assert moves == RootMoves(game, role, pos) by {
        assert Faithful(game, state.keys, pos);
      }
      OrderedMembers(Centrality(state.width, state.height), legal);
      var m := RootAll(pos, moves, depth);
      best := Some(m);
    }

    /** The `for (int[] m : moves)` loop of startNegamax: search every root
        move with beta 10000 and alpha the best value so far, and keep the
        first move of the highest value. */
    method RootAll(ghost pos: Position, moves: seq<Move>, depth: int) returns (best: Move)
      requires Valid() && Here() == pos && |moves| > 0
      requires forall k :: 0 <= k < |moves| ==> moves[k] in game.moves(pos, role)
      modifies this, state, state.board, state.dWhite, state.dBlack, state.qArr
      ensures Valid() && Here() == pos
      ensures RootOutcome(Some(best), tt, nodes) ==
              RootLoop(game, role, pos, moves, 0, depth, -Bound, -Bound, moves[0], old(tt), old(nodes))
    {
      best := moves[0];
      ghost var goal := RootLoop(game, role, pos, moves, 0, depth, -Bound, -Bound, moves[0], tt, nodes);
      var alpha, bestV := -Bound, -Bound;
      var i := 0;
      while i < |moves|
        invariant 0 <= i <= |moves|
        invariant Valid() && Here() == pos
        invariant RootLoop(game, role, pos, moves, i, depth, alpha, bestV, best, tt, nodes) == goal
        decreases |moves| - i
      {
        alpha, bestV, best := RootStep(pos, moves, i, depth, alpha, bestV, best, goal);
        i := i + 1;
      }
    }

    /** One turn of startNegamax's move loop: play the move, search the reply
        with beta 10000 and alpha the best value so far, take the move back,
        and keep the move when its value beats the best one. */
    method RootStep(ghost pos: Position, moves: seq<Move>, i: int, depth: int, alpha: int, bestV: int,
                    best: Move, ghost goal: RootOutcome)
      returns (alpha': int, bestV': int, best': Move)
      requires Valid() && Here() == pos && 0 <= i < |moves| && moves[i] in game.moves(pos, role)
      requires RootLoop(game, role, pos, moves, i, depth, alpha, bestV, best, tt, nodes) == goal
      modifies this, state, state.board, state.dWhite, state.dBlack, state.qArr
      ensures Valid() && Here() == pos
      ensures RootLoop(game, role, pos, moves, i + 1, depth, alpha', bestV', best', tt, nodes) == goal
    {
      var m := moves[i];
      ghost var tt1, n1 := tt, nodes;
      PlayAt(pos, m, role);
      var r := Negamax(depth - 1, -Bound, -alpha, false);
      UndoAt(pos, m, role);
      RootLoopStep(game, role, pos, moves, i, depth, alpha, bestV, best, tt1, n1,
                   game.play(pos, m, role), Outcome(r, tt, nodes));
      var v := -r;
      bestV', best' := bestV, best;
      if v > bestV {
        bestV', best' := v, m;
      }
      alpha' := Max(alpha, bestV');
    }

    /** The `while (depth < 50)` loop of nextAction: reset the node counter,
        search the root at the next depth, stop when a pass past depth 1
        visits no node, and keep the last non-null move. */
    method DeepenAll(ghost pos: Position) returns (best: Option<Move>)
      requires Valid() && Here() == pos
      modifies this, state, state.board, state.dWhite, state.dBlack, state.qArr
      ensures Valid() && Here() == pos
      ensures Plan(best, tt, nodes) == Deepen(game, role, pos, 1, None, old(tt), old(nodes))
    {
      best := None;
      var depth := 1;
      while depth < MaxDepth
        invariant 1 <= depth <= MaxDepth
        invariant Valid() && Here() == pos
        invariant Deepen(game, role, pos, depth, best, tt, nodes) == Deepen(game, role, pos, 1, None, old(tt), old(nodes))
        decreases MaxDepth - depth
      {
        nodes := 0;
        var currentBest := StartNegamax(depth);
        if nodes == 0 && depth > 1 {
          break;
        }
        if currentBest != None {
          best := currentBest;
        }
        depth := depth + 1;
      }
    }

    /** The opening of nextAction: a lastMove of four or more entries is
        played for the other role. */
    method ReplayLast(lastMove: Option<seq<int>>)
      requires Valid()
      requires lastMove != None && |lastMove.value| >= 4 ==>
                 MoveInArray(state.grid, LastMove(lastMove.value))
      modifies state, state.board
      ensures Valid() && Here() == Replay(state.keys, old(Here()), lastMove, role)
    {
      if lastMove != None && |lastMove.value| >= 4 {
        var lastMover := if role == "white" then "black" else "white";
        state.ApplyMove(lastMove.value[0], lastMove.value[1], lastMove.value[2], lastMove.value[3], lastMover);
      }
    }

    /** nextAction(lastMove): play the other role's last move, clear the table,
        deepen from depth 1, and play and return the best move found, or
        "noop" when there is none. */
    method NextAction(lastMove: Option<seq<int>>) returns (action: string)
      requires Valid()
      requires lastMove != None && |lastMove.value| >= 4 ==>
                 MoveInArray(state.grid, LastMove(lastMove.value))
      modifies this, state, state.board, state.dWhite, state.dBlack, state.qArr
      ensures Valid()
      ensures var pos := Replay(state.keys, old(Here()), lastMove, role);
              var plan := Deepen(game, role, pos, 1, None, map[], old(nodes));
              && tt == plan.tt && nodes == plan.nodes
              && (plan.best == None ==> action == "noop" && Here() == pos)
              && (plan.best != None ==> action == PlayAction(plan.best.value) && Here() == Play(state.keys, pos, plan.best.value, role))
    {
      ReplayLast(lastMove);
      ghost var pos := Here();
      tt := map[];
      var best := DeepenAll(pos);
      if best != None {
        var b := best.value;
        assert b in game.moves(pos, role) by {
          assert Faithful(game, state.keys, pos);
          PlanLegal(game, state.keys, role, pos, old(nodes));
        }
        PlayAt(pos, b, role);
        assert Here() == Play(state.keys, pos, b, role) by {
          assert Faithful(game, state.keys, pos);
        }
        action := PlayAction(b);
      } else {
        action := "noop";
      }
    }
  }

  class RandomAgent {
    const role: string
    var myTurn: bool
    const state: QueenBattleState

    ghost predicate Valid()
      reads state, state.board
    {
      state.Valid()
    }

    ghost function Here(): Position
      requires Valid()
      reads state, state.board
    {
      Position(state.grid, state.currentHash)
    }

    /** init: white moves first. */
    constructor Init(role: string, width: int, height: int, playclock: int,
                     whitePos: seq<Cell>, blackPos: seq<Cell>, keys: KeyTable)
      requires 0 <= width <= 10 && 0 <= height <= 10
      requires forall k :: 0 <= k < |whitePos| ==> 0 <= whitePos[k].0 <= width && 0 <= whitePos[k].1 <= height
      requires forall k :: 0 <= k < |blackPos| ==> 0 <= blackPos[k].0 <= width && 0 <= blackPos[k].1 <= height
      ensures Valid() && fresh(state) && fresh(state.board)
      ensures this.role == role && state.keys == keys
      ensures myTurn <==> role == "white"
      ensures state.grid == InitialGrid(width, height, whitePos, blackPos)
    {
      this.role := role;
      myTurn := role == "white";
      state := new QueenBattleState(width, height, whitePos, blackPos, keys);
    }

    /** The opening of nextAction: a given lastMove is played for the other
        role. */
    method ReplayLast(lastMove: Option<seq<int>>)
      requires Valid()
      requires lastMove != None ==> |lastMove.value| >= 4 && MoveInArray(state.grid, LastMove(lastMove.value))
      modifies state, state.board
      ensures Valid() && Here() == Replay(state.keys, old(Here()), lastMove, role)
    {
      if lastMove != None {
        var oppRole := if role == "white" then "black" else "white";
        state.ApplyMove(lastMove.value[0], lastMove.value[1], lastMove.value[2], lastMove.value[3], oppRole);
      }
    }

    /** The agent's turn: a legal move picked at random is played and
        returned, or "noop" when there is none. */
    method PlayRandom(ghost pos: Position) returns (action: string, played: bool)
      requires Valid() && Here() == pos
      modifies state, state.board
      ensures Valid()
      ensures played <==> LegalMoves(pos.grid, role) != []
      ensures !played ==> action == "noop" && Here() == pos
      ensures played ==> exists m :: m in LegalMoves(pos.grid, role) &&
                                     action == PlayAction(m) && Here() == Play(state.keys, pos, m, role)
    {
      var legalMoves := state.GetLegalMoves(role);
      if |legalMoves| == 0 {
        return "noop", false;
      }
      var k :| 0 <= k < |legalMoves|;
      var move := legalMoves[k];
      Undoable(state.keys, pos, move, role);
      state.ApplyMove(move.x1, move.y1, move.x2, move.y2, role);
      action, played := PlayAction(move), true;
      assert move in LegalMoves(pos.grid, role) && Here() == Play(state.keys, pos, move, role);
    }

    /** nextAction(lastMove): play the other role's last move; on the agent's
        turn play a legal move picked at random and hand the turn over, or
        pass without one and keep the turn; off its turn pass and take the
        turn. */
    method NextAction(lastMove: Option<seq<int>>) returns (action: string)
      requires Valid()
      requires lastMove != None ==> |lastMove.value| >= 4 && MoveInArray(state.grid, LastMove(lastMove.value))
      modifies this, state, state.board
      ensures Valid()
      ensures var pos := Replay(state.keys, old(Here()), lastMove, role);
              && (!old(myTurn) ==> action == "noop" && myTurn && Here() == pos)
              && (old(myTurn) && LegalMoves(pos.grid, role) == [] ==> action == "noop" && myTurn && Here() == pos)
              && (old(myTurn) && LegalMoves(pos.grid, role) != [] ==>
                    !myTurn && exists m :: m in LegalMoves(pos.grid, role) &&
                                           action == PlayAction(m) && Here() == Play(state.keys, pos, m, role))
    {
      ReplayLast(lastMove);
      ghost var pos := Here();
      if myTurn {
        var played;
        action, played := PlayRandom(pos);
        myTurn := !played;
      } else {
        myTurn := true;
        action := "noop";
      }
    }
  }
}
