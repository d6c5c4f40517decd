/** Move generation of QueenBattleState.getLegalMoves as functions on a Grid,
    each one mirroring one loop of the source: columns, rows, the eight
    directions, and the distances along one ray. A move is legal when its
    source holds the mover's piece and its destination is the first, second,
    ... empty square along one of the eight rays, every square before it empty. */
module MoveGen {
  import opened Board

  /** The direction table, in the source's order. */
  const Dirs: seq<(int, int)> := [(0, 1), (0, -1), (1, 0), (-1, 0), (1, 1), (1, -1), (-1, 1), (-1, -1)]

  /** a + delta * k for a direction component delta in {-1, 0, 1}. */
  function Along(a: int, delta: int, k: int): int {
    if delta == 1 then a + k else if delta == -1 then a - k else a
  }

  /** The square at distance k from (x, y) in direction dir. */
  function Target(x: int, y: int, dir: int, k: int): Cell
    requires 0 <= dir < 8
  {
    (Along(x, Dirs[dir].0, k), Along(y, Dirs[dir].1, k))
  }

  /** The move from (x, y) to the square at distance k in direction dir. */
  function Step(x: int, y: int, dir: int, k: int): Move
    requires 0 <= dir < 8
  {
    Move(x, y, Target(x, y, dir, k).0, Target(x, y, dir, k).1)
  }

  /** The source computes the square at distance k as (x + dx * k, y + dy * k). */
  lemma TargetStep(x: int, y: int, dir: int, k: int)
    requires 0 <= dir < 8
    ensures (x + Dirs[dir].0 * k, y + Dirs[dir].1 * k) == Target(x, y, dir, k)
  {
  }

  /** A square a queen may move into: on the playing area and empty. */
  predicate Open(g: Grid, c: Cell)
    requires g.WellFormed()
  {
    g.OnBoard(c.0, c.1) && g.At(c.0, c.1) == Empty
  }

  /** No direction stays in place, so an open target is at most 10 steps away. */
  lemma OpenNear(g: Grid, x: int, y: int, dir: int, k: int)
    requires g.WellFormed() && 0 <= x <= 10 && 0 <= y <= 10 && 0 <= dir < 8 && k >= 1
    requires Open(g, Target(x, y, dir, k))
    ensures k <= 10
  {
  }

  /** The moves along one ray from (x, y), from distance k on, up to the first
      square that is off the board or not empty (the `dist` loop). */
  function RayFrom(g: Grid, x: int, y: int, dir: int, k: int): seq<Move>
    requires g.WellFormed() && 0 <= x <= 10 && 0 <= y <= 10 && 0 <= dir < 8 && k >= 1
    decreases 11 - k
  {
    var t := Target(x, y, dir, k);
    if Open(g, t) then
      OpenNear(g, x, y, dir, k);
      [Step(x, y, dir, k)] + RayFrom(g, x, y, dir, k + 1)
    else []
  }

  /** A ray through an open square is that square's move followed by the rest of the ray. */
  lemma RayFromOpen(g: Grid, x: int, y: int, dir: int, k: int)
    requires g.WellFormed() && 0 <= x <= 10 && 0 <= y <= 10 && 0 <= dir < 8 && k >= 1
    requires Open(g, Target(x, y, dir, k))
    ensures k <= 10
    ensures RayFrom(g, x, y, dir, k) ==
            [Step(x, y, dir, k)] + RayFrom(g, x, y, dir, k + 1)
  {
  }

  /** A ray that emits anything starts on an open square. */
  lemma RayFromHead(g: Grid, x: int, y: int, dir: int, k: int)
    requires g.WellFormed() && 0 <= x <= 10 && 0 <= y <= 10 && 0 <= dir < 8 && k >= 1
    requires |RayFrom(g, x, y, dir, k)| > 0
    ensures Open(g, Target(x, y, dir, k))
  {
  }

  /** A ray stops at the first square that is not open. */
  lemma RayFromBlocked(g: Grid, x: int, y: int, dir: int, k: int)
    requires g.WellFormed() && 0 <= x <= 10 && 0 <= y <= 10 && 0 <= dir < 8 && k >= 1
    requires !Open(g, Target(x, y, dir, k))
    ensures RayFrom(g, x, y, dir, k) == []
  {
  }

  /** The rays of directions 0 .. n - 1 from (x, y), in order (the `dirs` loop). */
  function DirMoves(g: Grid, x: int, y: int, n: int): seq<Move>
    requires g.WellFormed() && 0 <= x <= 10 && 0 <= y <= 10 && 0 <= n <= 8
  {
    if n == 0 then [] else DirMoves(g, x, y, n - 1) + RayFrom(g, x, y, n - 1, 1)
  }

  /** One more direction appended to the moves found so far. */
  lemma DirMovesStep(g: Grid, x: int, y: int, n: int, moves: seq<Move>, r: seq<Move>, ray: seq<Move>)
    requires g.WellFormed() && 0 <= x <= 10 && 0 <= y <= 10 && 0 <= n < 8
    requires r == moves + DirMoves(g, x, y, n) && ray == RayFrom(g, x, y, n, 1)
    ensures r + ray == moves + DirMoves(g, x, y, n + 1)
  {
    var before := DirMoves(g, x, y, n);
    assert DirMoves(g, x, y, n + 1) == before + ray;
    AppendAssoc(moves, before, ray);
  }

  /** The moves of the square (x, y): all eight rays when it holds piece p. */
  function SquareMoves(g: Grid, p: int, x: int, y: int): seq<Move>
    requires g.WellFormed() && g.OnBoard(x, y)
  {
    if g.At(x, y) == p then DirMoves(g, x, y, 8) else []
  }

  /** The moves of squares (x, 1) .. (x, n) (the `j` loop). */
  function ColumnMoves(g: Grid, p: int, x: int, n: int): seq<Move>
    requires g.WellFormed() && 1 <= x <= g.width && 0 <= n <= g.height
  {
    if n == 0 then [] else ColumnMoves(g, p, x, n - 1) + SquareMoves(g, p, x, n)
  }

  /** The moves of columns 1 .. n (the `i` loop). */
  function MovesUpTo(g: Grid, p: int, n: int): seq<Move>
    requires g.WellFormed() && 0 <= n <= g.width
  {
    if n == 0 then [] else MovesUpTo(g, p, n - 1) + ColumnMoves(g, p, n, g.height)
  }

  /** One more row of the `j` loop. */
  lemma ColumnMovesNext(g: Grid, p: int, x: int, n: int)
    requires g.WellFormed() && 1 <= x <= g.width && 1 <= n <= g.height
    ensures ColumnMoves(g, p, x, n) == ColumnMoves(g, p, x, n - 1) + SquareMoves(g, p, x, n)
  {
  }

  /** One more column of the `i` loop. */
  lemma MovesUpToNext(g: Grid, p: int, n: int)
    requires g.WellFormed() && 1 <= n <= g.width
    ensures MovesUpTo(g, p, n) == MovesUpTo(g, p, n - 1) + ColumnMoves(g, p, n, g.height)
  {
  }

  /** getLegalMoves(role): the list the source builds, in its order. */
  function LegalMoves(g: Grid, role: string): seq<Move>
    requires g.WellFormed()
  {
    MovesUpTo(g, PieceOf(role), g.width)
  }

  // ---------------------------------------------------------------------
  // The reference definition of a legal move, independent of loop order.

  function Sign(n: int): int {
    if n > 0 then 1 else if n < 0 then -1 else 0
  }

  /** The index in Dirs of the direction a move goes in; -1 for a move that stays put. */
  function DirOf(m: Move): int {
    var sx, sy := Sign(m.x2 - m.x1), Sign(m.y2 - m.y1);
    if sx == 0 && sy == 1 then 0
    else if sx == 0 && sy == -1 then 1
    else if sx == 1 && sy == 0 then 2
    else if sx == -1 && sy == 0 then 3
    else if sx == 1 && sy == 1 then 4
    else if sx == 1 && sy == -1 then 5
    else if sx == -1 && sy == 1 then 6
    else if sx == -1 && sy == -1 then 7
    else -1
  }

  /** How many squares a move travels. */
  function Reach(m: Move): int {
    var dx, dy := Abs(m.x2 - m.x1), Abs(m.y2 - m.y1);
    if dx < dy then dy else dx
  }

  /** Every square at distance lo .. hi - 1 along the ray is open. */
  predicate OpenRun(g: Grid, x: int, y: int, dir: int, lo: int, hi: int)
    requires g.WellFormed() && 0 <= dir < 8
  {
    forall j :: lo <= j < hi ==> Open(g, Target(x, y, dir, j))
  }

  /** Every square strictly before distance k along the ray is open. */
  predicate ClearPath(g: Grid, x: int, y: int, dir: int, k: int)
    requires g.WellFormed() && 0 <= dir < 8
  {
    OpenRun(g, x, y, dir, 1, k)
  }

  /** A queen move for piece p: the source is a square holding p, the destination
      lies on one of the eight rays from it, is open, and so is every square between. */
  predicate IsLegal(g: Grid, p: int, m: Move)
    requires g.WellFormed()
  {
    && g.OnBoard(m.x1, m.y1) && g.At(m.x1, m.y1) == p
    && 0 <= DirOf(m) < 8 && Reach(m) >= 1
    && Target(m.x1, m.y1, DirOf(m), Reach(m)) == (m.x2, m.y2)
    && Open(g, (m.x2, m.y2))
    && ClearPath(g, m.x1, m.y1, DirOf(m), Reach(m))
  }

  /** The move to distance k along direction dir goes in direction dir and travels k squares. */
  lemma TargetMove(x: int, y: int, dir: int, k: int)
    requires 0 <= dir < 8 && k >= 1
    ensures DirOf(Step(x, y, dir, k)) == dir
    ensures Reach(Step(x, y, dir, k)) == k
  {
  }

  /** The move a ray emits for distance d, counting from distance k, goes to distance d. */
  lemma {:induction false} RayAt(g: Grid, x: int, y: int, dir: int, k: int, d: int)
    requires g.WellFormed() && 0 <= x <= 10 && 0 <= y <= 10 && 0 <= dir < 8 && k >= 1
    requires k <= d < k + |RayFrom(g, x, y, dir, k)|
    ensures RayFrom(g, x, y, dir, k)[d - k] == Step(x, y, dir, d)
    decreases d - k
  {
    RayFromHead(g, x, y, dir, k);
    RayFromOpen(g, x, y, dir, k);
    if k < d {
      RayAt(g, x, y, dir, k + 1, d);
      ConsAt(RayFrom(g, x, y, dir, k), RayFrom(g, x, y, dir, k + 1), d - k);
    }
  }

  /** Every square from distance k up to distance d is open when the ray from
      distance k reaches d. */
  lemma {:induction false} RayOpen(g: Grid, x: int, y: int, dir: int, k: int, d: int)
    requires g.WellFormed() && 0 <= x <= 10 && 0 <= y <= 10 && 0 <= dir < 8 && k >= 1
    requires k <= d < k + |RayFrom(g, x, y, dir, k)|
    ensures Open(g, Target(x, y, dir, d)) && OpenRun(g, x, y, dir, k, d)
    decreases d - k
  {
    RayFromHead(g, x, y, dir, k);
    if k < d {
      RayFromOpen(g, x, y, dir, k);
      RayOpen(g, x, y, dir, k + 1, d);
      OpenRunCons(g, x, y, dir, k, d);
    }
  }

  /** The i-th element of a sequence that starts with one extra element is the
      (i - 1)-th of the rest. */
  lemma ConsAt(a: seq<Move>, b: seq<Move>, i: int)
    requires |a| == |b| + 1 && a[1..] == b && 0 < i < |a|
    ensures a[i] == b[i - 1]
  {
  }

  /** An open square in front of an open run extends the run. */
  lemma OpenRunCons(g: Grid, x: int, y: int, dir: int, k: int, n: int)
    requires g.WellFormed() && 0 <= dir < 8 && k < n
    requires Open(g, Target(x, y, dir, k)) && OpenRun(g, x, y, dir, k + 1, n)
    ensures OpenRun(g, x, y, dir, k, n)
  {
  }

  /** A ray emits every move whose path from distance k is open. */
  lemma {:induction false} RayComplete(g: Grid, x: int, y: int, dir: int, k: int, d: int)
    requires g.WellFormed() && 0 <= x <= 10 && 0 <= y <= 10 && 0 <= dir < 8 && 1 <= k <= d
    requires forall j :: k <= j <= d ==> Open(g, Target(x, y, dir, j))
    ensures Step(x, y, dir, d) in RayFrom(g, x, y, dir, k)
    decreases d - k
  {
    assert Open(g, Target(x, y, dir, k));
    if k < d {
      RayComplete(g, x, y, dir, k + 1, d);
    }
  }

  // ---------------------------------------------------------------------
  // Soundness: every generated move is legal, with its source square and
  // direction where the loops put it.

  /** Everything a ray from (x, y) emits is legal, starts at (x, y), goes in
      direction dir, and the i-th move travels i + 1 squares. */
  lemma RaySound(g: Grid, p: int, x: int, y: int, dir: int)
    requires g.WellFormed() && g.OnBoard(x, y) && g.At(x, y) == p && 0 <= dir < 8
    ensures forall i :: 0 <= i < |RayFrom(g, x, y, dir, 1)| ==>
              IsLegal(g, p, RayFrom(g, x, y, dir, 1)[i]) && RayFrom(g, x, y, dir, 1)[i].x1 == x &&
              RayFrom(g, x, y, dir, 1)[i].y1 == y && DirOf(RayFrom(g, x, y, dir, 1)[i]) == dir &&
              Reach(RayFrom(g, x, y, dir, 1)[i]) == i + 1
  {
    var r := RayFrom(g, x, y, dir, 1);
    forall i | 0 <= i < |r|
      ensures IsLegal(g, p, r[i]) && r[i].x1 == x && r[i].y1 == y && DirOf(r[i]) == dir && Reach(r[i]) == i + 1
    {
      RayAt(g, x, y, dir, 1, 1 + i);
      RayOpen(g, x, y, dir, 1, 1 + i);
      TargetMove(x, y, dir, 1 + i);
    }
  }

  /** Every move of the first n rays from (x, y) is legal. */
  lemma {:induction false} DirMovesSound(g: Grid, p: int, x: int, y: int, n: int)
    requires g.WellFormed() && g.OnBoard(x, y) && g.At(x, y) == p && 0 <= n <= 8
    ensures forall i :: 0 <= i < |DirMoves(g, x, y, n)| ==> IsLegal(g, p, DirMoves(g, x, y, n)[i])
  {
    if n > 0 {
      DirMovesSound(g, p, x, y, n - 1);
      RaySound(g, p, x, y, n - 1);
    }
  }

  /** Every move of the first n rays from (x, y) starts at (x, y) and uses a direction below n. */
  lemma {:induction false} DirMovesFrom(g: Grid, p: int, x: int, y: int, n: int)
    requires g.WellFormed() && g.OnBoard(x, y) && g.At(x, y) == p && 0 <= n <= 8
    ensures forall i :: 0 <= i < |DirMoves(g, x, y, n)| ==>
              DirMoves(g, x, y, n)[i].x1 == x && DirMoves(g, x, y, n)[i].y1 == y && DirOf(DirMoves(g, x, y, n)[i]) < n
  {
    if n > 0 {
      DirMovesFrom(g, p, x, y, n - 1);
      RaySound(g, p, x, y, n - 1);
    }
  }

  /** Every move of squares (x, 1) .. (x, n) is legal for p. */
  lemma {:induction false} ColumnMovesSound(g: Grid, p: int, x: int, n: int)
    requires g.WellFormed() && 1 <= x <= g.width && 0 <= n <= g.height
    ensures forall i :: 0 <= i < |ColumnMoves(g, p, x, n)| ==> IsLegal(g, p, ColumnMoves(g, p, x, n)[i])
  {
    if n > 0 {
      ColumnMovesSound(g, p, x, n - 1);
      if g.At(x, n) == p {
        DirMovesSound(g, p, x, n, 8);
      }
    }
  }

  /** Every move of squares (x, 1) .. (x, n) starts in column x at a row up to n. */
  lemma {:induction false} ColumnMovesFrom(g: Grid, p: int, x: int, n: int)
    requires g.WellFormed() && 1 <= x <= g.width && 0 <= n <= g.height
    ensures forall i :: 0 <= i < |ColumnMoves(g, p, x, n)| ==>
              ColumnMoves(g, p, x, n)[i].x1 == x && ColumnMoves(g, p, x, n)[i].y1 <= n
  {
    if n > 0 {
      ColumnMovesFrom(g, p, x, n - 1);
      if g.At(x, n) == p {
        DirMovesFrom(g, p, x, n, 8);
      }
    }
  }

  /** Every move of columns 1 .. n is legal for p. */
  lemma {:induction false} MovesUpToSound(g: Grid, p: int, n: int)
    requires g.WellFormed() && 0 <= n <= g.width
    ensures forall i :: 0 <= i < |MovesUpTo(g, p, n)| ==> IsLegal(g, p, MovesUpTo(g, p, n)[i])
  {
    if n > 0 {
      MovesUpToSound(g, p, n - 1);
      ColumnMovesSound(g, p, n, g.height);
    }
  }

  /** Every move of columns 1 .. n starts in a column up to n. */
  lemma {:induction false} MovesUpToFrom(g: Grid, p: int, n: int)
    requires g.WellFormed() && 0 <= n <= g.width
    ensures forall i :: 0 <= i < |MovesUpTo(g, p, n)| ==> MovesUpTo(g, p, n)[i].x1 <= n
  {
    if n > 0 {
      MovesUpToFrom(g, p, n - 1);
      ColumnMovesFrom(g, p, n, g.height);
    }
  }

  /** Soundness of getLegalMoves: every move it returns is a legal queen move of the role's piece. */
  lemma LegalMovesSound(g: Grid, role: string)
    requires g.WellFormed()
    ensures forall i :: 0 <= i < |LegalMoves(g, role)| ==> IsLegal(g, PieceOf(role), LegalMoves(g, role)[i])
  {
    MovesUpToSound(g, PieceOf(role), g.width);
  }

  // ---------------------------------------------------------------------
  // Completeness: every legal move is generated.

  lemma {:induction false} DirMovesContain(g: Grid, x: int, y: int, n: int, dir: int, m: Move)
    requires g.WellFormed() && 0 <= x <= 10 && 0 <= y <= 10 && 0 <= dir < n <= 8
    requires m in RayFrom(g, x, y, dir, 1)
    ensures m in DirMoves(g, x, y, n)
  {
    if dir < n - 1 {
      DirMovesContain(g, x, y, n - 1, dir, m);
    }
  }

  lemma {:induction false} ColumnMovesContain(g: Grid, p: int, x: int, n: int, y: int, m: Move)
    requires g.WellFormed() && 1 <= x <= g.width && 1 <= y <= n <= g.height
    requires m in SquareMoves(g, p, x, y)
    ensures m in ColumnMoves(g, p, x, n)
  {
    if y < n {
      ColumnMovesContain(g, p, x, n - 1, y, m);
    }
  }

  /** MovesUpTo and ColumnMoves as functions of the column index. */
  function UpToColumn(g: Grid, p: int): int -> seq<Move>
    requires g.WellFormed()
  {
    k => if 0 <= k <= g.width then MovesUpTo(g, p, k) else []
  }

  function ColumnAt(g: Grid, p: int): int -> seq<Move>
    requires g.WellFormed()
  {
    k => if 1 <= k <= g.width then ColumnMoves(g, p, k, g.height) else []
  }

  /** The `i` loop appends one column's moves at a time. */
  lemma MovesUpToChunks(g: Grid, p: int)
    requires g.WellFormed()
    ensures forall k :: 1 <= k <= g.width ==> UpToColumn(g, p)(k) == UpToColumn(g, p)(k - 1) + ColumnAt(g, p)(k)
  {
    forall k | 1 <= k <= g.width
      ensures UpToColumn(g, p)(k) == UpToColumn(g, p)(k - 1) + ColumnAt(g, p)(k)
    {
      MovesUpToNext(g, p, k);
    }
  }

  lemma {:induction false} MovesUpToContain(g: Grid, p: int, n: int, x: int, m: Move)
    requires g.WellFormed() && 1 <= x <= n <= g.width
    requires m in ColumnMoves(g, p, x, g.height)
    ensures m in MovesUpTo(g, p, n)
  {
    MovesUpToChunks(g, p);
    assert m in ColumnAt(g, p)(x);
    ChunksContain(UpToColumn(g, p), ColumnAt(g, p), n, x, m);
    assert m in UpToColumn(g, p)(n);
  }

  /** A list built chunk by chunk, upTo(k) == upTo(k - 1) + chunk(k), holds
      every member of every chunk up to k. */
  lemma {:induction false} ChunksContain(upTo: int -> seq<Move>, chunk: int -> seq<Move>, n: int, x: int, m: Move)
    requires 1 <= x <= n
    requires forall k :: 1 <= k <= n ==> upTo(k) == upTo(k - 1) + chunk(k)
    requires m in chunk(x)
    ensures m in upTo(n)
    decreases n
  {
    if x < n {
      ChunksContain(upTo, chunk, n - 1, x, m);
    }
    assert upTo(n) == upTo(n - 1) + chunk(n);
  }

  /** Completeness of getLegalMoves: every legal queen move of the role's piece is in the list. */
  lemma LegalMovesComplete(g: Grid, role: string, m: Move)
    requires g.WellFormed() && IsLegal(g, PieceOf(role), m)
    ensures m in LegalMoves(g, role)
  {
    var dir, d := DirOf(m), Reach(m);
    assert forall j :: 1 <= j <= d ==> Open(g, Target(m.x1, m.y1, dir, j)) by {
      assert ClearPath(g, m.x1, m.y1, dir, d);
    }
    RayComplete(g, m.x1, m.y1, dir, 1, d);
    DirMovesContain(g, m.x1, m.y1, 8, dir, m);
    ColumnMovesContain(g, PieceOf(role), m.x1, g.height, m.y1, m);
    MovesUpToContain(g, PieceOf(role), g.width, m.x1, m);
  }

  /** getLegalMoves returns exactly the legal queen moves of the role's piece. */
  lemma LegalMovesExact(g: Grid, role: string, m: Move)
    requires g.WellFormed()
    ensures m in LegalMoves(g, role) <==> IsLegal(g, PieceOf(role), m)
  {
    if m in LegalMoves(g, role) {
      LegalMovesSound(g, role);
    } else if IsLegal(g, PieceOf(role), m) {
      LegalMovesComplete(g, role, m);
    }
  }

  /** A generated move starts on a square holding the mover's piece and ends
      on an empty square, both on the playing area. */
  lemma LegalMoveEnds(g: Grid, role: string, m: Move)
    requires g.WellFormed() && m in LegalMoves(g, role)
    ensures g.OnBoard(m.x1, m.y1) && g.At(m.x1, m.y1) == PieceOf(role)
    ensures g.OnBoard(m.x2, m.y2) && g.At(m.x2, m.y2) == Empty
  {
    LegalMovesSound(g, role);
  }

  // ---------------------------------------------------------------------
  // Order: by source column, then source row, then direction index, then distance.

  predicate Before(a: Move, b: Move) {
    || a.x1 < b.x1
    || (a.x1 == b.x1 && a.y1 < b.y1)
    || (a.x1 == b.x1 && a.y1 == b.y1 && DirOf(a) < DirOf(b))
    || (a.x1 == b.x1 && a.y1 == b.y1 && DirOf(a) == DirOf(b) && Reach(a) < Reach(b))
  }

  predicate Ascending(s: seq<Move>) {
    forall i, j :: 0 <= i < j < |s| ==> Before(s[i], s[j])
  }

  lemma AscendingConcat(a: seq<Move>, b: seq<Move>)
    requires Ascending(a) && Ascending(b)
    requires forall i, j :: 0 <= i < |a| && 0 <= j < |b| ==> Before(a[i], b[j])
    ensures Ascending(a + b)
  {
    forall i, j | 0 <= i < j < |a + b| ensures Before((a + b)[i], (a + b)[j]) {
      if j < |a| {
      } else if i >= |a| {
        assert Before(b[i - |a|], b[j - |a|]);
      } else {
        assert Before(a[i], b[j - |a|]);
      }
    }
  }

  lemma ColumnsBefore(a: seq<Move>, b: seq<Move>, n: int)
    requires forall i :: 0 <= i < |a| ==> a[i].x1 <= n - 1
    requires forall j :: 0 <= j < |b| ==> b[j].x1 == n
    ensures forall i, j :: 0 <= i < |a| && 0 <= j < |b| ==> Before(a[i], b[j])
  {
  }

  /** The moves of columns before n, followed by those of column n, stay
      ascending. */
  lemma ColumnsAscending(a: seq<Move>, b: seq<Move>, c: seq<Move>, n: int)
    requires c == a + b && Ascending(a) && Ascending(b)
    requires forall i :: 0 <= i < |a| ==> a[i].x1 <= n - 1
    requires forall j :: 0 <= j < |b| ==> b[j].x1 == n
    ensures Ascending(c)
  {
    ColumnsBefore(a, b, n);
    AscendingConcat(a, b);
  }

  lemma RowsBefore(a: seq<Move>, b: seq<Move>, x: int, n: int)
    requires forall i :: 0 <= i < |a| ==> a[i].x1 == x && a[i].y1 <= n - 1
    requires forall j :: 0 <= j < |b| ==> b[j].x1 == x && b[j].y1 == n
    ensures forall i, j :: 0 <= i < |a| && 0 <= j < |b| ==> Before(a[i], b[j])
  {
  }

  /** The moves of rows before n of column x, followed by those of row n,
      stay ascending. */
  lemma RowsAscending(a: seq<Move>, b: seq<Move>, c: seq<Move>, x: int, n: int)
    requires c == a + b && Ascending(a) && Ascending(b)
    requires forall i :: 0 <= i < |a| ==> a[i].x1 == x && a[i].y1 <= n - 1
    requires forall j :: 0 <= j < |b| ==> b[j].x1 == x && b[j].y1 == n
    ensures Ascending(c)
  {
    RowsBefore(a, b, x, n);
    AscendingConcat(a, b);
  }

  lemma {:induction false} DirMovesAscending(g: Grid, p: int, x: int, y: int, n: int)
    requires g.WellFormed() && g.OnBoard(x, y) && g.At(x, y) == p && 0 <= n <= 8
    ensures Ascending(DirMoves(g, x, y, n))
  {
    if n > 0 {
      DirMovesAscending(g, p, x, y, n - 1);
      DirMovesFrom(g, p, x, y, n - 1);
      RaySound(g, p, x, y, n - 1);
      AscendingConcat(DirMoves(g, x, y, n - 1), RayFrom(g, x, y, n - 1, 1));
    }
  }

  /** The moves of one square are ascending and all start on that square. */
  lemma SquareMovesAscending(g: Grid, p: int, x: int, y: int)
    requires g.WellFormed() && g.OnBoard(x, y)
    ensures Ascending(SquareMoves(g, p, x, y))
    ensures forall j :: 0 <= j < |SquareMoves(g, p, x, y)| ==>
              SquareMoves(g, p, x, y)[j].x1 == x && SquareMoves(g, p, x, y)[j].y1 == y
  {
    if g.At(x, y) == p {
      DirMovesAscending(g, p, x, y, 8);
      DirMovesFrom(g, p, x, y, 8);
    }
  }

  lemma {:induction false} ColumnMovesAscending(g: Grid, p: int, x: int, n: int)
    requires g.WellFormed() && 1 <= x <= g.width && 0 <= n <= g.height
    ensures Ascending(ColumnMoves(g, p, x, n))
  {
    if n > 0 {
      ColumnMovesNext(g, p, x, n);
      ColumnMovesAscending(g, p, x, n - 1);
      ColumnMovesFrom(g, p, x, n - 1);
      SquareMovesAscending(g, p, x, n);
      RowsAscending(ColumnMoves(g, p, x, n - 1), SquareMoves(g, p, x, n), ColumnMoves(g, p, x, n), x, n);
    }
  }

  lemma {:induction false} MovesUpToAscending(g: Grid, p: int, n: int)
    requires g.WellFormed() && 0 <= n <= g.width
    ensures Ascending(MovesUpTo(g, p, n))
  {
    MovesUpToChunks(g, p);
    forall k | 1 <= k <= n
      ensures Ascending(ColumnAt(g, p)(k))
      ensures forall j :: 0 <= j < |ColumnAt(g, p)(k)| ==> ColumnAt(g, p)(k)[j].x1 == k
    {
      ColumnMovesAscending(g, p, k, g.height);
      ColumnMovesFrom(g, p, k, g.height);
    }
    ChunksAscending(UpToColumn(g, p), ColumnAt(g, p), n);
    assert Ascending(UpToColumn(g, p)(n));
  }

  /** A list built column by column, each column ascending and holding moves
      of that source column only, is ascending and holds moves of columns up
      to n. */
  lemma {:induction false} ChunksAscending(upTo: int -> seq<Move>, column: int -> seq<Move>, n: int)
    requires n >= 0 && upTo(0) == []
    requires forall k :: 1 <= k <= n ==> upTo(k) == upTo(k - 1) + column(k)
    requires forall k :: 1 <= k <= n ==> Ascending(column(k))
    requires forall k, j :: 1 <= k <= n && 0 <= j < |column(k)| ==> column(k)[j].x1 == k
    ensures Ascending(upTo(n))
    ensures forall i :: 0 <= i < |upTo(n)| ==> upTo(n)[i].x1 <= n
    decreases n
  {
    if n > 0 {
      ChunksAscending(upTo, column, n - 1);
      var a, b := upTo(n - 1), column(n);
      assert upTo(n) == a + b;
      assert forall j :: 0 <= j < |b| ==> b[j].x1 == n;
      ColumnsAscending(a, b, upTo(n), n);
    }
  }

  /** getLegalMoves lists its moves in strictly increasing order of (source column,
      source row, direction index, distance); in particular no move appears twice. */
  lemma LegalMovesOrdered(g: Grid, role: string)
    requires g.WellFormed()
    ensures Ascending(LegalMoves(g, role))
    ensures forall i, j :: 0 <= i < j < |LegalMoves(g, role)| ==> LegalMoves(g, role)[i] != LegalMoves(g, role)[j]
  {
    MovesUpToAscending(g, PieceOf(role), g.width);
  }

  // ---------------------------------------------------------------------
  // The scenarios of the source's move-generation tests.

  /** Every generated destination lies on the playing area. */
  lemma DestinationsOnBoard(g: Grid, role: string)
    requires g.WellFormed()
    ensures forall i :: 0 <= i < |LegalMoves(g, role)| ==>
              1 <= LegalMoves(g, role)[i].x2 <= g.width && 1 <= LegalMoves(g, role)[i].y2 <= g.height
  {
    LegalMovesSound(g, role);
  }

  /** On a 4 x 4 board with white at (2, 2) and black at (4, 1), white can move diagonally to (4, 4). */
  lemma DiagonalToCorner()
    ensures InitialGrid(4, 4, [(2, 2)], [(4, 1)]).WellFormed()
    ensures Move(2, 2, 4, 4) in LegalMoves(InitialGrid(4, 4, [(2, 2)], [(4, 1)]), "white")
  {
    var g := InitialGrid(4, 4, [(2, 2)], [(4, 1)]);
    var g0 := EmptyGrid(4, 4);
    var g1 := Place(g0, [(2, 2)], White);
    assert g1.At(4, 1) == Empty && g1.At(3, 3) == Empty && g1.At(4, 4) == Empty;
    assert g.At(2, 2) == White && g.At(3, 3) == Empty && g.At(4, 4) == Empty;
    var m := Move(2, 2, 4, 4);
    assert DirOf(m) == 4 && Reach(m) == 2;
    assert ClearPath(g, 2, 2, 4, 2) by {
      forall j | 1 <= j < 2 ensures Open(g, Target(2, 2, 4, j)) {
        assert Target(2, 2, 4, j) == (3, 3);
      }
    }
    LegalMovesComplete(g, "white", m);
  }

  /** With (1, 2) burned, white at (1, 1) cannot move to (1, 3): it would jump the burned square. */
  lemma NoJumpOverBurned()
    ensures InitialGrid(4, 4, [(1, 1)], [(4, 4)]).WellFormed()
    ensures Move(1, 1, 1, 3) !in LegalMoves(InitialGrid(4, 4, [(1, 1)], [(4, 4)]).Set(1, 2, Burned), "white")
  {
    var g := InitialGrid(4, 4, [(1, 1)], [(4, 4)]).Set(1, 2, Burned);
    var m := Move(1, 1, 1, 3);
    assert DirOf(m) == 0 && Reach(m) == 2;
    assert Target(1, 1, 0, 1) == (1, 2);
    assert !Open(g, (1, 2));
    LegalMovesExact(g, "white", m);
  }
}
