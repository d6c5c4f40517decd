/** The two scores QueenBattleState hands to the search: evaluate(role), a
    static evaluation from role's point of view, and quickEvaluateMove, the
    centrality of a move's destination that orders moves at the root. */
module Scoring {
  import opened Board
  import opened MoveGen
  import opened Distances

  /** The score of a side that has won: its opponent has no move left. */
  const Win := 10000

  /** evaluate(role): 0 when neither side can move; -10000 for the side that
      cannot move while the other can, +10000 for the other; otherwise five
      points per move of mobility advantage and twenty per square of territory,
      all from white's point of view and negated for any other role. */
  function Evaluation(g: Grid, role: string): int
    requires g.WellFormed()
  {
    var wm, bm := |LegalMoves(g, "white")|, |LegalMoves(g, "black")|;
    if wm == 0 && bm == 0 then 0
    else if wm == 0 then (if role == "white" then -Win else Win)
    else if bm == 0 then (if role == "white" then Win else -Win)
    else
      var score := (wm - bm) * 5 + Territory(g) * 20;
      if role == "white" then score else -score
  }

  /** The two perspectives are exact opposites. */
  lemma EvaluationSymmetric(g: Grid, role: string)
    requires g.WellFormed()
    ensures Evaluation(g, role) == -Evaluation(g, Opponent(role))
    ensures Evaluation(g, "white") == -Evaluation(g, "black")
  {
  }

  /** A side with no legal move while its opponent has one scores -10000, and
      the opponent +10000; when neither can move the score is 0. */
  lemma EvaluationTerminal(g: Grid, role: string)
    requires g.WellFormed()
    ensures LegalMoves(g, role) == [] && LegalMoves(g, Opponent(role)) != [] ==>
              Evaluation(g, role) == -Win && Evaluation(g, Opponent(role)) == Win
    ensures LegalMoves(g, role) == [] && LegalMoves(g, Opponent(role)) == [] ==> Evaluation(g, role) == 0
  {
  }

  /** Away from the end, the score is bounded by the mobility of both sides and
      the number of empty squares: the territory term never exceeds twenty
      points per empty square. */
  lemma EvaluationBound(g: Grid, role: string)
    requires g.WellFormed()
    requires LegalMoves(g, "white") != [] && LegalMoves(g, "black") != []
    ensures -(5 * (|LegalMoves(g, "white")| + |LegalMoves(g, "black")|) + 20 * Count(g, Empty))
              <= Evaluation(g, role) <=
            5 * (|LegalMoves(g, "white")| + |LegalMoves(g, "black")|) + 20 * Count(g, Empty)
  {
    TerritoryBound(g);
  }

  /** quickEvaluateMove(m): 20 minus the king-move distance from the
      destination to the centre ((width + 1) / 2, (height + 1) / 2). */
  function QuickScore(width: int, height: int, m: Move): int {
    var cx, cy := (width + 1) / 2, (height + 1) / 2;
    20 - Max(Abs(m.x2 - cx), Abs(m.y2 - cy))
  }

  /** On a board of at most 10 x 10 every destination scores between 15 and 20,
      and the centre square scores exactly 20. */
  lemma QuickScoreRange(g: Grid, m: Move)
    requires g.WellFormed() && g.OnBoard(m.x2, m.y2)
    ensures 15 <= QuickScore(g.width, g.height, m) <= 20
    ensures (m.x2, m.y2) == ((g.width + 1) / 2, (g.height + 1) / 2) <==> QuickScore(g.width, g.height, m) == 20
  {
  }
}
