/** QueenBattleState: the board array, the incrementally kept Zobrist hash,
    and the scratch arrays of the breadth-first search, updated in place. The
    ghost field grid is the board as a value; Valid() keeps the array equal to
    it, and every method is proved against the functions on Grid in Board,
    MoveGen, Distances and Scoring. */
module GameState {
  import opened Bitwise
  import opened Board
  import opened MoveGen
  import opened Zobrist
  import opened Distances
  import opened Scoring

  class QueenBattleState {
    const width: int
    const height: int
    /** board[x, y] for 0 <= x <= width, 0 <= y <= height. */
    const board: array2<int>
    /** The bit pattern of the long currentHash. */
    var currentHash: Word
    /** The shared static zobristTable. */
    const keys: KeyTable
    /** Pre-allocated distance arrays and queue of the search. */
    const dWhite: array2<int>
    const dBlack: array2<int>
    const qArr: array<int>
    ghost var grid: Grid

    ghost predicate Valid()
      reads this, board
    {
      && 0 <= width <= 10 && 0 <= height <= 10
      && board.Length0 == width + 1 && board.Length1 == height + 1
      && dWhite.Length0 == width + 1 && dWhite.Length1 == height + 1
      && dBlack.Length0 == width + 1 && dBlack.Length1 == height + 1
      && qArr.Length == width * height * 2 + 10
      && board != dWhite && board != dBlack && dWhite != dBlack
      && grid.WellFormed() && grid.width == width && grid.height == height
      && forall x, y :: 0 <= x <= width && 0 <= y <= height ==> board[x, y] == grid.At(x, y)
    }

    /** The hash invariant: currentHash is the hash of the board computed from scratch. */
    ghost predicate HashConsistent()
      reads this
    {
      grid.WellFormed() && currentHash == HashOf(keys, grid)
    }

    /** The public constructor: an empty board, then the white queens, then the
        black ones, each placement folded into the hash. */
    constructor (w: int, h: int, whitePos: seq<Cell>, blackPos: seq<Cell>, keys: KeyTable)
      requires 0 <= w <= 10 && 0 <= h <= 10
      requires forall k :: 0 <= k < |whitePos| ==> 0 <= whitePos[k].0 <= w && 0 <= whitePos[k].1 <= h
      requires forall k :: 0 <= k < |blackPos| ==> 0 <= blackPos[k].0 <= w && 0 <= blackPos[k].1 <= h
      ensures Valid() && fresh(board) && fresh(dWhite) && fresh(dBlack) && fresh(qArr)
      ensures width == w && height == h && this.keys == keys
      ensures grid == InitialGrid(w, h, whitePos, blackPos)
      ensures currentHash == PlacementHash(keys, PlacementHash(keys, 0, whitePos, White), blackPos, Black)
      ensures Distinct(whitePos + blackPos) ==> HashConsistent()
    {
      width, height := w, h;
      this.keys := keys;
      board := new int[w + 1, h + 1]((_, _) => 0);
      dWhite := new int[w + 1, h + 1]((_, _) => 0);
      dBlack := new int[w + 1, h + 1]((_, _) => 0);
      qArr := new int[w * h * 2 + 10](_ => 0);
      currentHash := 0;
      grid := EmptyGrid(w, h);
      new;
      PlaceAll(whitePos, White);
      PlaceAll(blackPos, Black);
      if Distinct(whitePos + blackPos) {
        InitialHash(keys, w, h, whitePos, blackPos);
      }
    }

    /** The `for (int[] p : positions)` loops of the constructor: every listed
        square gets the piece and the piece's key is folded into the hash. */
    method PlaceAll(ps: seq<Cell>, piece: int)
      requires Valid() && (piece == White || piece == Black)
      requires forall k :: 0 <= k < |ps| ==> grid.InArray(ps[k].0, ps[k].1)
      modifies this, board
      ensures Valid() && grid == Place(old(grid), ps, piece)
      ensures currentHash == PlacementHash(keys, old(currentHash), ps, piece)
    {
      for k := 0 to |ps|
        invariant Valid() && grid.width == old(grid).width && grid.height == old(grid).height
        invariant Place(grid, ps[k..], piece) == Place(old(grid), ps, piece)
        invariant PlacementHash(keys, currentHash, ps[k..], piece) == PlacementHash(keys, old(currentHash), ps, piece)
      {
        assert ps[k..][1..] == ps[k + 1..];
        PlaceSquare(ps[k].0, ps[k].1, piece);
      }
      assert ps[|ps|..] == [];
    }

    /** One turn of the placement loop: the square (x, y) takes the piece,
        and the key of the piece on that square is folded into the hash. */
    method PlaceSquare(x: int, y: int, piece: int)
      requires Valid() && grid.InArray(x, y) && (piece == White || piece == Black)
      modifies this, board
      ensures Valid() && grid == old(grid).Set(x, y, piece)
      ensures currentHash == Xor(old(currentHash), Key(keys, x, y, piece))
    {
      SetSquare(x, y, piece);
      XorWord(currentHash, Key(keys, x, y, piece));
      currentHash := Xor(currentHash, Key(keys, x, y, piece));
    }

    /** The private constructor cloneState uses: all arrays zero, hash 0. */
    constructor Blank(w: int, h: int, keys: KeyTable)
      requires 0 <= w <= 10 && 0 <= h <= 10
      ensures Valid() && fresh(board) && fresh(dWhite) && fresh(dBlack) && fresh(qArr)
      ensures width == w && height == h && this.keys == keys
      ensures grid == EmptyGrid(w, h) && currentHash == 0
    {
      width, height := w, h;
      this.keys := keys;
      board := new int[w + 1, h + 1]((_, _) => 0);
      dWhite := new int[w + 1, h + 1]((_, _) => 0);
      dBlack := new int[w + 1, h + 1]((_, _) => 0);
      qArr := new int[w * h * 2 + 10](_ => 0);
      currentHash := 0;
      grid := EmptyGrid(w, h);
    }

    /** cloneState(): a new state with an equal board and hash and arrays of its own. */
    method CloneState() returns (c: QueenBattleState)
      requires Valid()
      ensures fresh(c) && fresh(c.board) && fresh(c.dWhite) && fresh(c.dBlack) && fresh(c.qArr)
      ensures c.Valid() && c.width == width && c.height == height && c.keys == keys
      ensures c.grid == grid && c.currentHash == currentHash
    {
      c := new QueenBattleState.Blank(width, height, keys);
      for i := 0 to width + 1
        invariant fresh(c.board)
        invariant forall x, y :: 0 <= x < i && 0 <= y <= height ==> c.board[x, y] == board[x, y]
      {
        CopyColumn(c.board, i);
      }
      c.grid := grid;
      c.currentHash := currentHash;
    }

    /** One turn of cloneState's copy loop: the arraycopy of column i into a
        board of the same size. */
    method CopyColumn(to: array2<int>, i: int)
      requires Valid() && to != board && 0 <= i <= width
      requires to.Length0 == width + 1 && to.Length1 == height + 1
      modifies to
      ensures forall y :: 0 <= y <= height ==> to[i, y] == board[i, y]
      ensures forall x, y :: 0 <= x <= width && 0 <= y <= height && x != i ==> to[x, y] == old(to[x, y])
    {
      for j := 0 to height + 1
        invariant forall y :: 0 <= y < j ==> to[i, y] == board[i, y]
        invariant forall x, y :: 0 <= x <= width && 0 <= y <= height && x != i ==> to[x, y] == old(to[x, y])
      {
        to[i, j] := board[i, j];
      }
    }

    /** applyMove: three hash updates, then the source burns and the
        destination takes the mover's piece. Any square of the array is
        accepted; on a source holding the piece and an empty destination the
        hash invariant is kept. */
    method ApplyMove(x1: int, y1: int, x2: int, y2: int, role: string)
      requires Valid() && grid.InArray(x1, y1) && grid.InArray(x2, y2)
      modifies this, board
      ensures Valid()
      ensures grid == Apply(old(grid), Move(x1, y1, x2, y2), PieceOf(role))
      ensures currentHash == ApplyHash(keys, old(currentHash), Move(x1, y1, x2, y2), PieceOf(role))
      ensures old(HashConsistent()) && old(grid).At(x1, y1) == PieceOf(role) && old(grid).At(x2, y2) == Empty ==>
                HashConsistent()
    {
      var piece := PieceOf(role);
      XorWord(currentHash, Key(keys, x1, y1, piece));
      currentHash := Xor(currentHash, Key(keys, x1, y1, piece));
      XorWord(currentHash, Key(keys, x1, y1, 3));
      currentHash := Xor(currentHash, Key(keys, x1, y1, 3));
      XorWord(currentHash, Key(keys, x2, y2, piece));
      currentHash := Xor(currentHash, Key(keys, x2, y2, piece));
      SetSquare(x1, y1, Burned);
      SetSquare(x2, y2, piece);
      if old(HashConsistent()) && old(grid).At(x1, y1) == piece && old(grid).At(x2, y2) == Empty {
        ApplyKeepsHash(keys, old(grid), Move(x1, y1, x2, y2), piece);
      }
    }

    /** retractMove: the three hash updates in reverse, then the source gets the
        piece back and the destination is emptied. */
    method RetractMove(x1: int, y1: int, x2: int, y2: int, role: string)
      requires Valid() && grid.InArray(x1, y1) && grid.InArray(x2, y2)
      modifies this, board
      ensures Valid()
      ensures grid == Retract(old(grid), Move(x1, y1, x2, y2), PieceOf(role))
      ensures currentHash == RetractHash(keys, old(currentHash), Move(x1, y1, x2, y2), PieceOf(role))
      ensures old(HashConsistent()) && old(grid).At(x1, y1) == Burned && old(grid).At(x2, y2) == PieceOf(role) ==>
                HashConsistent()
    {
      var piece := PieceOf(role);
      XorWord(currentHash, Key(keys, x2, y2, piece));
      currentHash := Xor(currentHash, Key(keys, x2, y2, piece));
      XorWord(currentHash, Key(keys, x1, y1, 3));
      currentHash := Xor(currentHash, Key(keys, x1, y1, 3));
      XorWord(currentHash, Key(keys, x1, y1, piece));
      currentHash := Xor(currentHash, Key(keys, x1, y1, piece));
      SetSquare(x1, y1, piece);
      SetSquare(x2, y2, Empty);
      if old(HashConsistent()) && old(grid).At(x1, y1) == Burned && old(grid).At(x2, y2) == piece {
        RetractKeepsHash(keys, old(grid), Move(x1, y1, x2, y2), piece);
      }
    }

    /** Write v into the square (x, y) of the board array and of grid. */
    method SetSquare(x: int, y: int, v: int)
      requires Valid() && grid.InArray(x, y)
      modifies this, board
      ensures Valid() && grid == old(grid).Set(x, y, v) && currentHash == old(currentHash)
    {
      board[x, y] := v;
      grid := grid.Set(x, y, v);
    }

    /** getBurnedCount(): the burned squares of the playing area. */
    method GetBurnedCount() returns (count: int)
      requires Valid()
      ensures count == Count(grid, Burned)
    {
      count := 0;
      for i := 1 to width + 1
        invariant count == CountUpTo(grid, Burned, i - 1)
      {
        for j := 1 to height + 1
          invariant count == CountUpTo(grid, Burned, i - 1) + ColumnCount(grid, Burned, i, j - 1)
        {
          if board[i, j] == Burned {
            count := count + 1;
          }
        }
      }
    }

    /** getLegalMoves(role): the moves of every queen of the role, column by
        column, row by row, direction by direction, nearest square first. */
    method GetLegalMoves(role: string) returns (moves: seq<Move>)
      requires Valid()
      ensures moves == LegalMoves(grid, role)
    {
      moves := [];
      var p := PieceOf(role);
      for i := 1 to width + 1
        invariant moves == MovesUpTo(grid, p, i - 1)
      {
        moves := ScanColumnNext(moves, p, i);
      }
    }

    /** One turn of the `i` loop of getLegalMoves: the moves of column i
        extend those of the columns before it. */
    method ScanColumnNext(moves: seq<Move>, p: int, i: int) returns (r: seq<Move>)
      requires Valid() && 1 <= i <= width && moves == MovesUpTo(grid, p, i - 1)
      ensures r == MovesUpTo(grid, p, i)
    {
      r := ScanColumn(moves, p, i);
      MovesUpToNext(grid, p, i);
    }

    /** The `j` loop of getLegalMoves for column i: the moves of the queens of
        piece p in that column, bottom row first, appended to moves. */
    method ScanColumn(moves: seq<Move>, p: int, i: int) returns (r: seq<Move>)
      requires Valid() && 1 <= i <= width
      ensures r == moves + ColumnMoves(grid, p, i, height)
    {
      r := moves;
      for j := 1 to height + 1
        invariant r == moves + ColumnMoves(grid, p, i, j - 1)
      {
        r := ScanSquare(moves, r, p, i, j);
      }
    }

    /** One turn of the `j` loop: the moves of the queen on (i, j), if it
        holds one of piece p. */
    method ScanSquare(moves: seq<Move>, r0: seq<Move>, p: int, i: int, j: int) returns (r: seq<Move>)
      requires Valid() && 1 <= i <= width && 1 <= j <= height
      requires r0 == moves + ColumnMoves(grid, p, i, j - 1)
      ensures r == moves + ColumnMoves(grid, p, i, j)
    {
      ghost var column := ColumnMoves(grid, p, i, j - 1);
      assert ColumnMoves(grid, p, i, j) == column + SquareMoves(grid, p, i, j);
      r := r0;
      if board[i, j] == p {
        r := AddQueenMoves(r, i, j);
      }
      AppendAssoc(moves, column, SquareMoves(grid, p, i, j));
    }

    /** The `dirs` loop of getLegalMoves for the queen on (x, y). */
    method AddQueenMoves(moves: seq<Move>, x: int, y: int) returns (r: seq<Move>)
      requires Valid() && grid.OnBoard(x, y)
      ensures r == moves + DirMoves(grid, x, y, 8)
    {
      r := moves;
      for dir := 0 to 8
        invariant r == moves + DirMoves(grid, x, y, dir)
      {
        var ray := ScanRay(x, y, dir);
        DirMovesStep(grid, x, y, dir, moves, r, ray);
        r := r + ray;
      }
    }

    /** The `dist` loop of getLegalMoves: the empty squares from (x, y) in
        direction dir, nearest first, up to the first blocked square. */
    method ScanRay(x: int, y: int, dir: int) returns (ray: seq<Move>)
      requires Valid() && grid.OnBoard(x, y) && 0 <= dir < 8
      ensures ray == RayFrom(grid, x, y, dir, 1)
    {
      ray := [];
      ghost var g := grid;
      assert g.WellFormed();
      ghost var goal := RayFrom(g, x, y, dir, 1);
      var dist := 1;
      while true
        invariant 1 <= dist <= 11
        invariant ray + RayFrom(g, x, y, dir, dist) == goal
        decreases 11 - dist
      {
        var open;
        open, ray := ScanSquareAt(x, y, dir, dist, ray, goal);
        if !open {
          break;
        }
        dist := dist + 1;
      }
    }

    /** One turn of the `dist` loop: the square at distance dist is added to
        the ray when it is empty, and ends the walk otherwise. */
    method ScanSquareAt(x: int, y: int, dir: int, dist: int, ray0: seq<Move>, ghost goal: seq<Move>)
      returns (open: bool, ray: seq<Move>)
      requires Valid() && grid.OnBoard(x, y) && 0 <= dir < 8 && dist >= 1
      requires ray0 + RayFrom(grid, x, y, dir, dist) == goal
      ensures open ==> dist <= 10 && ray + RayFrom(grid, x, y, dir, dist + 1) == goal
      ensures !open ==> ray == goal
    {
      var nx, ny := Target(x, y, dir, dist).0, Target(x, y, dir, dist).1;
      if 1 <= nx <= width && 1 <= ny <= height && board[nx, ny] == Empty {
        assert Open(grid, (nx, ny));
        RayFromOpen(grid, x, y, dir, dist);
        var m := Move(x, y, nx, ny);
        ghost var rest := RayFrom(grid, x, y, dir, dist + 1);
        AppendAssoc(ray0, [m], rest);
        ray := ray0 + [m];
        open := true;
      } else {
        assert !Open(grid, (nx, ny));
        RayFromBlocked(grid, x, y, dir, dist);
        ray := ray0;
        open := false;
      }
    }

    /** evaluate(role). */
    method Evaluate(role: string) returns (v: int)
      requires Valid()
      modifies dWhite, dBlack, qArr
      ensures v == Evaluation(grid, role)
    {
      var wMoves := GetLegalMoves("white");
      var bMoves := GetLegalMoves("black");
      if |wMoves| == 0 && |bMoves| == 0 {
        return 0;
      }
      if |wMoves| == 0 {
        return if role == "white" then -10000 else 10000;
      }
      if |bMoves| == 0 {
        return if role == "white" then 10000 else -10000;
      }
      var territory := CalculateBFSTerritory();
      var score := (|wMoves| - |bMoves|) * 5 + territory * 20;
      return if role == "white" then score else -score;
    }

    /** calculateBFSTerritory(): reset both distance arrays, search from each
        colour, and count the empty squares each colour reaches first. */
    method CalculateBFSTerritory() returns (territory: int)
      requires Valid()
      modifies dWhite, dBlack, qArr
      ensures territory == Territory(grid)
    {
      for i := 1 to width + 1
        invariant forall x, y :: 1 <= x < i && 1 <= y <= height ==> dWhite[x, y] == Unreached && dBlack[x, y] == Unreached
      {
        for j := 1 to height + 1
          invariant forall x, y :: 1 <= x < i && 1 <= y <= height ==> dWhite[x, y] == Unreached && dBlack[x, y] == Unreached
          invariant forall y :: 1 <= y < j ==> dWhite[i, y] == Unreached && dBlack[i, y] == Unreached
        {
          dWhite[i, j] := Unreached;
          dBlack[i, j] := Unreached;
        }
      }
      Bfs(dWhite, White);
      Bfs(dBlack, Black);
      territory := CountClaims();
    }

    /** The counting loops of calculateBFSTerritory, over the distances the two
        searches left. */
    method CountClaims() returns (territory: int)
      requires Valid()
      requires forall x, y :: 1 <= x <= width && 1 <= y <= height ==>
                 dWhite[x, y] == Distances.Bfs(grid, White).dist[x][y] &&
                 dBlack[x, y] == Distances.Bfs(grid, Black).dist[x][y]
      ensures territory == Territory(grid)
    {
      ghost var dw, db := Distances.Bfs(grid, White).dist, Distances.Bfs(grid, Black).dist;
      territory := 0;
      for i := 1 to width + 1
        invariant territory == ClaimUpTo(grid, dw, db, i - 1)
      {
        for j := 1 to height + 1
          invariant territory == ClaimUpTo(grid, dw, db, i - 1) + ColumnClaim(grid, dw, db, i, j - 1)
        {
          if board[i, j] == Empty {
            var w, b := dWhite[i, j], dBlack[i, j];
            if w != Unreached && (b == Unreached || w < b) {
              territory := territory + 1;
            } else if b != Unreached && (w == Unreached || b < w) {
              territory := territory - 1;
            }
          }
        }
      }
    }

    /** dists is a distance array of the search: shaped like the board and
        not the board itself. dWhite and dBlack both qualify. */
    ghost predicate Scratch(dists: array2<int>)
      reads this
    {
      dists.Length0 == width + 1 && dists.Length1 == height + 1 && dists != board
    }

    /** The distance array dists and the first 2 * |s.queue| entries of qArr
        hold the sweep s. */
    ghost predicate Mirrors(dists: array2<int>, s: Sweep)
      reads this, dists, qArr
    {
      && Scratch(dists) && Distances.Shaped(grid, s.dist) && grid.width == width && grid.height == height
      && (forall x, y :: 1 <= x <= width && 1 <= y <= height ==> dists[x, y] == s.dist[x][y])
      && 2 * |s.queue| <= qArr.Length
      && (forall k :: 0 <= k < |s.queue| ==> qArr[2 * k] == s.queue[k].0 && qArr[2 * k + 1] == s.queue[k].1)
    }

    /** bfs(dists, p): queue every square holding p at distance 0, then expand
        queued squares in order until the queue is exhausted. The distances it
        leaves are those of the functional search, and every write to qArr is
        in bounds because the queue never holds more than width * height
        squares. */
    method Bfs(dists: array2<int>, p: int)
      requires Valid() && Scratch(dists) && (p == White || p == Black)
      requires forall x, y :: 1 <= x <= width && 1 <= y <= height ==> dists[x, y] == Unreached
      modifies dists, qArr
      ensures Valid() && Scratch(dists)
      ensures forall x, y :: 1 <= x <= width && 1 <= y <= height ==> dists[x, y] == Distances.Bfs(grid, p).dist[x][y]
    {
      var tail;
      ghost var s;
      tail, s := Seed(dists, p);
      SeedUpToFacts(grid, p, width);
      ConsistentAccounted(grid, s);
      ghost var g := grid;
      ghost var drain := (s': Sweep, h: int) =>
        if g.WellFormed() && Accounted(g, s') && 0 <= h <= |s'.queue| then Drain(g, s', h) else s';
      assert forall s': Sweep, h: int :: DrainsAs(g, drain, s', h);
      DrainQueue(dists, tail, s, g, drain);
      assert DrainsAs(g, drain, s, 0);
    }

    /** The `while (head < tail)` loop of bfs, from the seeded sweep start,
        proved against drain, a stand-in for Drain on g. */
    method DrainQueue(dists: array2<int>, tail0: int, ghost start: Sweep,
                      ghost g: Grid, ghost drain: (Sweep, int) -> Sweep)
      requires Valid() && Scratch(dists) && g == grid
      requires forall s, h :: DrainsAs(g, drain, s, h)
      requires Accounted(grid, start) && Mirrors(dists, start) && tail0 == 2 * |start.queue|
      modifies dists, qArr
      ensures Valid() && Scratch(dists)
      ensures Mirrors(dists, drain(start, 0))
    {
      var tail := tail0;
      ghost var s := start;
      var head := 0;
      ghost var hq := 0;
      ghost var area := g.width * g.height;
      AccountedBound(g, s);
      while head < tail
        invariant Valid() && Scratch(dists) && g == grid
        invariant Accounted(g, s) && Mirrors(dists, s) && tail == 2 * |s.queue|
        invariant 0 <= hq <= |s.queue| <= area && head == 2 * hq
        invariant drain(s, hq) == drain(start, 0)
        decreases area - hq
      {
        head, tail, s := Dequeue(dists, head, tail, hq, s, g, drain);
        hq := hq + 1;
      }
      DrainsAsDone(g, drain, s, hq);
    }

    /** One turn of the `while (head < tail)` loop of bfs: take the square at
        head off the queue and expand it at its own distance. */
    method Dequeue(dists: array2<int>, head0: int, tail0: int, ghost hq: int, ghost s0: Sweep,
                   ghost g: Grid, ghost drain: (Sweep, int) -> Sweep)
      returns (head: int, tail: int, ghost s: Sweep)
      requires Valid() && Scratch(dists) && g == grid
      requires forall s, h :: DrainsAs(g, drain, s, h)
      requires Accounted(g, s0) && Mirrors(dists, s0) && tail0 == 2 * |s0.queue|
      requires 0 <= hq < |s0.queue| && head0 == 2 * hq
      modifies dists, qArr
      ensures Valid() && Scratch(dists)
      ensures head == head0 + 2 && hq < |s.queue| <= g.width * g.height
      ensures Accounted(g, s) && Mirrors(dists, s) && tail == 2 * |s.queue|
      ensures drain(s, hq + 1) == drain(s0, hq)
    {
      DrainStep(g, s0, hq);
      ghost var c := s0.queue[hq];
      assert qArr[head0] == c.0 && qArr[head0 + 1] == c.1;
      var cx := qArr[head0];
      var cy := qArr[head0 + 1];
      head := head0 + 2;
      assert 1 <= cx <= width && 1 <= cy <= height;
      assert dists[cx, cy] == s0.dist[cx][cy];
      var d := dists[cx, cy];
      tail, s := ExpandSquare(dists, cx, cy, d, tail0, s0);
      AccountedBound(g, s);
      assert DrainsAs(g, drain, s0, hq);
      assert DrainsAs(g, drain, s, hq + 1);
    }

    /** The seeding loops of bfs: every square holding p gets distance 0 and is
        queued, column by column. */
    method Seed(dists: array2<int>, p: int) returns (tail: int, ghost s: Sweep)
      requires Valid() && Scratch(dists)
      requires forall x, y :: 1 <= x <= width && 1 <= y <= height ==> dists[x, y] == Unreached
      modifies dists, qArr
      ensures Valid() && Scratch(dists)
      ensures s == SeedUpTo(grid, p, width)
      ensures Mirrors(dists, s) && tail == 2 * |s.queue|
    {
      tail, s := 0, Sweep(Unset(grid), []);
      assert s == SeedUpTo(grid, p, 0);
      for i := 1 to width + 1
        invariant Valid() && Scratch(dists)
        invariant s == SeedUpTo(grid, p, i - 1)
        invariant Mirrors(dists, s) && tail == 2 * |s.queue|
      {
        tail, s := SeedColumnAt(dists, p, i, tail, s);
      }
    }

    /** The inner seeding loop, over the rows of column x. */
    method SeedColumnAt(dists: array2<int>, p: int, x: int, tail0: int, ghost s0: Sweep)
      returns (tail: int, ghost s: Sweep)
      requires Valid() && Scratch(dists) && 1 <= x <= width
      requires s0 == SeedUpTo(grid, p, x - 1) && Mirrors(dists, s0) && tail0 == 2 * |s0.queue|
      modifies dists, qArr
      ensures Valid() && Scratch(dists)
      ensures s == SeedUpTo(grid, p, x)
      ensures Mirrors(dists, s) && tail == 2 * |s.queue|
    {
      tail, s := tail0, s0;
      for y := 1 to height + 1
        invariant Valid() && Scratch(dists)
        invariant s == SeedColumn(grid, p, s0, x, y - 1)
        invariant Mirrors(dists, s) && tail == 2 * |s.queue|
      {
        tail, s := SeedSquare(dists, p, x, y, tail, s);
      }
    }

    /** One square of the seeding loops: (x, y) is queued at distance 0 when
        it holds p. */
    method SeedSquare(dists: array2<int>, p: int, x: int, y: int, tail0: int, ghost s0: Sweep)
      returns (tail: int, ghost s: Sweep)
      requires Valid() && Scratch(dists) && 1 <= x <= width && 1 <= y <= height
      requires s0 == SeedColumn(grid, p, SeedUpTo(grid, p, x - 1), x, y - 1)
      requires Mirrors(dists, s0) && tail0 == 2 * |s0.queue|
      modifies dists, qArr
      ensures Valid() && Scratch(dists)
      ensures s == SeedColumn(grid, p, SeedUpTo(grid, p, x - 1), x, y)
      ensures Mirrors(dists, s) && tail == 2 * |s.queue|
    {
      SeedColumnStep(grid, p, x, y - 1);
      tail, s := tail0, s0;
      if board[x, y] == p {
        tail, s := Push(dists, x, y, 0, tail0, s0);
      }
    }

    /** The `dirs` loop of bfs for the queued square (cx, cy) at distance d. */
    method ExpandSquare(dists: array2<int>, cx: int, cy: int, d: int, tail0: int, ghost s0: Sweep)
      returns (tail: int, ghost s: Sweep)
      requires Valid() && Scratch(dists)
      requires Accounted(grid, s0) && Mirrors(dists, s0) && tail0 == 2 * |s0.queue|
      requires grid.OnBoard(cx, cy) && d >= 0
      modifies dists, qArr
      ensures Valid() && Scratch(dists)
      ensures s == ExpandDirs(grid, s0, (cx, cy), d, 8)
      ensures Accounted(grid, s) && |s0.queue| <= |s.queue|
      ensures Mirrors(dists, s) && tail == 2 * |s.queue|
    {
      tail, s := tail0, s0;
      for dir := 0 to 8
        invariant Valid() && Scratch(dists)
        invariant s == ExpandDirs(grid, s0, (cx, cy), d, dir)
        invariant Mirrors(dists, s) && tail == 2 * |s.queue|
      {
        tail, s := ExpandDir(dists, cx, cy, d, dir, tail, s0, s);
      }
      ExpandDirsKeeps(grid, s0, (cx, cy), d, 8);
    }

    /** One turn of the `dirs` loop: the ray in direction dir. */
    method ExpandDir(dists: array2<int>, cx: int, cy: int, d: int, dir: int, tail0: int, ghost start: Sweep, ghost s0: Sweep)
      returns (tail: int, ghost s: Sweep)
      requires Valid() && Scratch(dists) && Accounted(grid, start)
      requires grid.OnBoard(cx, cy) && d >= 0 && 0 <= dir < 8
      requires s0 == ExpandDirs(grid, start, (cx, cy), d, dir)
      requires Mirrors(dists, s0) && tail0 == 2 * |s0.queue|
      modifies dists, qArr
      ensures Valid() && Scratch(dists)
      ensures s == ExpandDirs(grid, start, (cx, cy), d, dir + 1)
      ensures Mirrors(dists, s) && tail == 2 * |s.queue|
    {
      ExpandDirsKeeps(grid, start, (cx, cy), d, dir);
      ExpandDirsStep(grid, start, (cx, cy), d, dir + 1);
      tail, s := ExpandAlong(dists, cx, cy, dir, d, tail0, s0);
    }

    /** The `dist` loop of bfs: walk from (cx, cy) in direction dir until the
        first square off the board or not empty, giving every square on the
        way that has no distance yet the distance d + 1 and queueing it. */
    method ExpandAlong(dists: array2<int>, cx: int, cy: int, dir: int, d: int, tail0: int, ghost s0: Sweep)
      returns (tail: int, ghost s: Sweep)
      requires Valid() && Scratch(dists)
      requires Accounted(grid, s0) && Mirrors(dists, s0) && tail0 == 2 * |s0.queue|
      requires grid.OnBoard(cx, cy) && 0 <= dir < 8 && d >= 0
      modifies dists, qArr
      ensures Valid() && Scratch(dists)
      ensures s == ExpandRay(grid, s0, (cx, cy), dir, 1, d)
      ensures Accounted(grid, s) && |s0.queue| <= |s.queue|
      ensures Mirrors(dists, s) && tail == 2 * |s.queue|
    {
      tail, s := tail0, s0;
      ghost var goal := ExpandRay(grid, s0, (cx, cy), dir, 1, d);
      var dist := 1;
      while true
        invariant Valid() && Scratch(dists)
        invariant 1 <= dist <= 11
        invariant Accounted(grid, s) && |s0.queue| <= |s.queue|
        invariant Mirrors(dists, s) && tail == 2 * |s.queue|
        invariant ExpandRay(grid, s, (cx, cy), dir, dist, d) == goal
        decreases 11 - dist
      {
        var open;
        open, tail, s := RayCell(dists, cx, cy, dir, dist, d, tail, s);
        if !open {
          break;
        }
        dist := dist + 1;
      }
    }

    /** One turn of the `dist` loop: the square at distance dist from (cx, cy)
        in direction dir. When it is open it gets distance d + 1 if it had
        none, and the walk goes on; otherwise the walk ends there. */
    method RayCell(dists: array2<int>, cx: int, cy: int, dir: int, dist: int, d: int, tail0: int, ghost s0: Sweep)
      returns (open: bool, tail: int, ghost s: Sweep)
      requires Valid() && Scratch(dists)
      requires Accounted(grid, s0) && Mirrors(dists, s0) && tail0 == 2 * |s0.queue|
      requires grid.OnBoard(cx, cy) && 0 <= dir < 8 && d >= 0 && dist >= 1
      modifies dists, qArr
      ensures Valid() && Scratch(dists)
      ensures Accounted(grid, s) && |s0.queue| <= |s.queue|
      ensures Mirrors(dists, s) && tail == 2 * |s.queue|
      ensures open ==> dist <= 10 && ExpandRay(grid, s, (cx, cy), dir, dist + 1, d) == ExpandRay(grid, s0, (cx, cy), dir, dist, d)
      ensures !open ==> ExpandRay(grid, s0, (cx, cy), dir, dist, d) == s0 && s == s0
    {
      tail, s := tail0, s0;
      var nx, ny := Target(cx, cy, dir, dist).0, Target(cx, cy, dir, dist).1;
      if 1 <= nx <= width && 1 <= ny <= height && board[nx, ny] == Empty {
        assert Open(grid, (nx, ny));
        ExpandRayUnfold(grid, s0, (cx, cy), dir, dist, d);
        tail, s := Reach(dists, nx, ny, d, tail0, s0);
        open := true;
      } else {
        assert !Open(grid, (nx, ny));
        ExpandRayBlocked(grid, s0, (cx, cy), dir, dist, d);
        open := false;
      }
    }

    /** An open square of a ray: it gets distance d + 1 and is queued unless
        it already has a distance. */
    method Reach(dists: array2<int>, x: int, y: int, d: int, tail0: int, ghost s0: Sweep)
      returns (tail: int, ghost s: Sweep)
      requires Valid() && Scratch(dists)
      requires Accounted(grid, s0) && Mirrors(dists, s0) && tail0 == 2 * |s0.queue|
      requires grid.OnBoard(x, y) && d >= 0
      modifies dists, qArr
      ensures Valid() && Scratch(dists)
      ensures s == RayStep(grid, s0, (x, y), d)
      ensures Accounted(grid, s) && |s0.queue| <= |s.queue|
      ensures Mirrors(dists, s) && tail == 2 * |s.queue|
    {
      tail, s := tail0, s0;
      if dists[x, y] == Unreached {
        EnqueueAccounted(grid, s0, (x, y), d + 1);
        tail, s := Push(dists, x, y, d + 1, tail0, s0);
      }
    }

    /** Enqueue (x, y) at distance v: record v in dists and append the two
        coordinates to the queue array after its last entry. */
    method Push(dists: array2<int>, x: int, y: int, v: int, tail0: int, ghost s0: Sweep)
      returns (tail: int, ghost s: Sweep)
      requires Valid() && Scratch(dists) && Distances.Shaped(grid, s0.dist)
      requires Mirrors(dists, s0) && tail0 == 2 * |s0.queue| && |s0.queue| < width * height
      requires grid.OnBoard(x, y)
      modifies dists, qArr
      ensures Valid() && Scratch(dists)
      ensures s == Enqueue(s0, (x, y), v) && Distances.Shaped(grid, s.dist)
      ensures Mirrors(dists, s) && tail == 2 * |s.queue|
    {
      dists[x, y] := v;
      qArr[tail0] := x;
      qArr[tail0 + 1] := y;
      tail := tail0 + 2;
      s := Enqueue(s0, (x, y), v);
    }

    /** quickEvaluateMove(m). */
    function QuickEvaluateMove(m: Move): int {
      QuickScore(width, height, m)
    }

    /** getHash(): under the hash invariant, the hash of the board from scratch. */
    function GetHash(): (h: nat)
      reads this
      ensures HashConsistent() ==> h == HashOf(keys, grid)
    {
      currentHash
    }
  }
}
