/** The Queen Battle board as a value: cell contents, moves, roles, and the
    effect of playing and taking back a move. The class QueenBattleState keeps
    one of these in step with its int[width+1][height+1] array. */
module Board {

  /** Cell contents, as the board array stores them. */
  const Empty := 0
  const White := 1
  const Black := 2
  const Burned := -1

  type Cell = (int, int)

  /** A move from (x1, y1) to (x2, y2); the source burns when the move is played. */
  datatype Move = Move(x1: int, y1: int, x2: int, y2: int)

  /** Regrouping a concatenation, stated once for any element type so that
      proofs about move lists need not rediscover it. */
  lemma AppendAssoc<T>(a: seq<T>, b: seq<T>, c: seq<T>)
    ensures (a + b) + c == a + (b + c)
  {
  }

  datatype Option<T> = None | Some(value: T)

  function Max(a: int, b: int): int {
    if a < b then b else a
  }

  function Abs(n: int): int {
    if n < 0 then -n else n
  }

  /** The board array, column by column: board[x][y] for x in 0..width and
      y in 0..height, of which 1..width by 1..height is the playing area. */
  datatype Grid = Grid(width: int, height: int, cells: seq<seq<int>>)
  {
    /** The array has the declared shape; the key table is 11 x 11, so no side exceeds 10. */
    predicate WellFormed() {
      && 0 <= width <= 10 && 0 <= height <= 10 && |cells| == width + 1
      && forall x :: 0 <= x < |cells| ==> |cells[x]| == height + 1
    }

    /** (x, y) is an index of the board array. */
    predicate InArray(x: int, y: int) {
      0 <= x <= width && 0 <= y <= height
    }

    /** (x, y) is a square of the playing area. */
    predicate OnBoard(x: int, y: int) {
      1 <= x <= width && 1 <= y <= height
    }

    function At(x: int, y: int): int
      requires WellFormed() && InArray(x, y)
    {
      cells[x][y]
    }

    function Set(x: int, y: int, v: int): (r: Grid)
      requires WellFormed() && InArray(x, y)
      ensures r.WellFormed() && r.width == width && r.height == height
      ensures r.At(x, y) == v
      ensures forall i, j :: InArray(i, j) && (i, j) != (x, y) ==> r.At(i, j) == At(i, j)
    {
      Grid(width, height, cells[x := cells[x][y := v]])
    }
  }

  /** The array of a freshly built state: every entry 0. */
  function EmptyGrid(w: int, h: int): (g: Grid)
    requires 0 <= w <= 10 && 0 <= h <= 10
    ensures g.WellFormed() && g.width == w && g.height == h
    ensures forall i, j :: g.InArray(i, j) ==> g.At(i, j) == Empty
  {
    Grid(w, h, seq(w + 1, _ => seq(h + 1, _ => Empty)))
  }

  /** No position is listed twice. */
  predicate Distinct(ps: seq<Cell>) {
    forall a, b :: 0 <= a < b < |ps| ==> ps[a] != ps[b]
  }

  /** Writes `piece` at every position of `ps`, in order. */
  function Place(g: Grid, ps: seq<Cell>, piece: int): (r: Grid)
    requires g.WellFormed() && forall k :: 0 <= k < |ps| ==> g.InArray(ps[k].0, ps[k].1)
    ensures r.WellFormed() && r.width == g.width && r.height == g.height
    ensures forall k :: 0 <= k < |ps| ==> r.InArray(ps[k].0, ps[k].1) && r.At(ps[k].0, ps[k].1) == piece
    ensures forall i, j :: g.InArray(i, j) && (i, j) !in ps ==> r.At(i, j) == g.At(i, j)
    decreases |ps|
  {
    if ps == [] then g
    else Place(g.Set(ps[0].0, ps[0].1, piece), ps[1..], piece)
  }

  /** The array the constructor leaves: whites placed first, then blacks. */
  function InitialGrid(w: int, h: int, whites: seq<Cell>, blacks: seq<Cell>): (g: Grid)
    requires 0 <= w <= 10 && 0 <= h <= 10
    requires forall k :: 0 <= k < |whites| ==> 0 <= whites[k].0 <= w && 0 <= whites[k].1 <= h
    requires forall k :: 0 <= k < |blacks| ==> 0 <= blacks[k].0 <= w && 0 <= blacks[k].1 <= h
    ensures g.WellFormed() && g.width == w && g.height == h
  {
    Place(Place(EmptyGrid(w, h), whites, White), blacks, Black)
  }

  /** The piece a role plays: "white" plays 1, every other role string plays 2. */
  function PieceOf(role: string): (p: int)
    ensures p == White || p == Black
    ensures p == White <==> role == "white"
  {
    if role == "white" then White else Black
  }

  /** The role that moves between two turns of `role`. */
  function Opponent(role: string): (o: string)
    ensures PieceOf(o) == White + Black - PieceOf(role)
    ensures o == "white" || o == "black"
  {
    if role == "white" then "black" else "white"
  }

  predicate MoveInArray(g: Grid, m: Move) {
    g.InArray(m.x1, m.y1) && g.InArray(m.x2, m.y2)
  }

  /** Playing a move: the source burns, then the destination takes the piece. */
  function Apply(g: Grid, m: Move, piece: int): (r: Grid)
    requires g.WellFormed() && MoveInArray(g, m)
    ensures r.WellFormed() && r.width == g.width && r.height == g.height
    ensures r.At(m.x2, m.y2) == piece
    ensures (m.x1, m.y1) != (m.x2, m.y2) ==> r.At(m.x1, m.y1) == Burned
    ensures forall i, j :: g.InArray(i, j) && (i, j) != (m.x1, m.y1) && (i, j) != (m.x2, m.y2) ==>
              r.At(i, j) == g.At(i, j)
  {
    g.Set(m.x1, m.y1, Burned).Set(m.x2, m.y2, piece)
  }

  /** Taking a move back: the source gets the piece again, then the destination is emptied. */
  function Retract(g: Grid, m: Move, piece: int): (r: Grid)
    requires g.WellFormed() && MoveInArray(g, m)
    ensures r.WellFormed() && r.width == g.width && r.height == g.height
    ensures r.At(m.x2, m.y2) == Empty
    ensures (m.x1, m.y1) != (m.x2, m.y2) ==> r.At(m.x1, m.y1) == piece
    ensures forall i, j :: g.InArray(i, j) && (i, j) != (m.x1, m.y1) && (i, j) != (m.x2, m.y2) ==>
              r.At(i, j) == g.At(i, j)
  {
    g.Set(m.x1, m.y1, piece).Set(m.x2, m.y2, Empty)
  }

  /** Grids of the same shape that agree on every array cell are equal. */
  lemma SameGrid(g: Grid, g': Grid)
    requires g.WellFormed() && g'.WellFormed()
    requires g.width == g'.width && g.height == g'.height
    requires forall i, j :: g.InArray(i, j) ==> g.At(i, j) == g'.At(i, j)
    ensures g == g'
  {
    forall x | 0 <= x < |g.cells| ensures g.cells[x] == g'.cells[x] {
      assert |g.cells[x]| == |g'.cells[x]|;
      forall y | 0 <= y < |g.cells[x]| ensures g.cells[x][y] == g'.cells[x][y] {
        assert g.At(x, y) == g'.At(x, y);
      }
    }
  }

  /** Retract undoes Apply when the source held the piece and the destination was empty. */
  lemma RetractUndoesApply(g: Grid, m: Move, piece: int)
    requires g.WellFormed() && MoveInArray(g, m)
    requires g.At(m.x1, m.y1) == piece && g.At(m.x2, m.y2) == Empty && piece != Empty
    ensures Retract(Apply(g, m, piece), m, piece) == g
  {
    SameGrid(Retract(Apply(g, m, piece), m, piece), g);
  }

  /** Apply undoes Retract when the source was burned and the destination held the piece. */
  lemma ApplyUndoesRetract(g: Grid, m: Move, piece: int)
    requires g.WellFormed() && MoveInArray(g, m)
    requires g.At(m.x1, m.y1) == Burned && g.At(m.x2, m.y2) == piece
    ensures Apply(Retract(g, m, piece), m, piece) == g
  {
    SameGrid(Apply(Retract(g, m, piece), m, piece), g);
  }

  /** The squares (x, 1) .. (x, n) of column x holding v. */
  function ColumnCount(g: Grid, v: int, x: int, n: int): int
    requires g.WellFormed() && 1 <= x <= g.width && 0 <= n <= g.height
  {
    if n == 0 then 0 else ColumnCount(g, v, x, n - 1) + (if g.At(x, n) == v then 1 else 0)
  }

  /** The squares of columns 1 .. n holding v. */
  function CountUpTo(g: Grid, v: int, n: int): int
    requires g.WellFormed() && 0 <= n <= g.width
  {
    if n == 0 then 0 else CountUpTo(g, v, n - 1) + ColumnCount(g, v, n, g.height)
  }

  /** The squares of the playing area holding v. */
  function Count(g: Grid, v: int): int
    requires g.WellFormed()
  {
    CountUpTo(g, v, g.width)
  }

  lemma {:induction false} ColumnCountBound(g: Grid, v: int, x: int, n: int)
    requires g.WellFormed() && 1 <= x <= g.width && 0 <= n <= g.height
    ensures 0 <= ColumnCount(g, v, x, n) <= n
    decreases n
  {
    if n > 0 {
      ColumnCountBound(g, v, x, n - 1);
    }
  }

  lemma {:induction false} CountUpToBound(g: Grid, v: int, n: int)
    requires g.WellFormed() && 0 <= n <= g.width
    ensures 0 <= CountUpTo(g, v, n) <= n * g.height
    decreases n
  {
    if n > 0 {
      CountUpToBound(g, v, n - 1);
      ColumnCountBound(g, v, n, g.height);
      assert (n - 1) * g.height + g.height == n * g.height;
    }
  }

  /** Between none and all width * height squares hold v. */
  lemma CountBound(g: Grid, v: int)
    requires g.WellFormed()
    ensures 0 <= Count(g, v) <= g.width * g.height
  {
    CountUpToBound(g, v, g.width);
  }

  lemma {:induction false} ColumnCountSet(g: Grid, v: int, x: int, n: int, y: int, u: int)
    requires g.WellFormed() && 1 <= x <= g.width && 0 <= n <= g.height && g.OnBoard(x, y)
    ensures ColumnCount(g.Set(x, y, u), v, x, n) ==
            ColumnCount(g, v, x, n) + (if y <= n then (if u == v then 1 else 0) - (if g.At(x, y) == v then 1 else 0) else 0)
    decreases n
  {
    if n > 0 {
      ColumnCountSet(g, v, x, n - 1, y, u);
    }
  }

  lemma {:induction false} ColumnCountOther(g: Grid, v: int, x: int, n: int, x': int, y: int, u: int)
    requires g.WellFormed() && 1 <= x <= g.width && 0 <= n <= g.height && g.OnBoard(x', y) && x != x'
    ensures ColumnCount(g.Set(x', y, u), v, x, n) == ColumnCount(g, v, x, n)
    decreases n
  {
    if n > 0 {
      ColumnCountOther(g, v, x, n - 1, x', y, u);
    }
  }

  lemma {:induction false} CountUpToSet(g: Grid, v: int, n: int, x: int, y: int, u: int)
    requires g.WellFormed() && 0 <= n <= g.width && g.OnBoard(x, y)
    ensures CountUpTo(g.Set(x, y, u), v, n) ==
            CountUpTo(g, v, n) + (if x <= n then (if u == v then 1 else 0) - (if g.At(x, y) == v then 1 else 0) else 0)
    decreases n
  {
    if n > 0 {
      CountUpToSet(g, v, n - 1, x, y, u);
      if n == x {
        ColumnCountSet(g, v, x, g.height, y, u);
      } else {
        ColumnCountOther(g, v, n, g.height, x, y, u);
      }
    }
  }

  /** Writing u on a square changes the count of v by what left and what came. */
  lemma CountSet(g: Grid, v: int, x: int, y: int, u: int)
    requires g.WellFormed() && g.OnBoard(x, y)
    ensures Count(g.Set(x, y, u), v) == Count(g, v) + (if u == v then 1 else 0) - (if g.At(x, y) == v then 1 else 0)
  {
    CountUpToSet(g, v, g.width, x, y, u);
  }

  /** A move from a square holding a queen to an empty square burns exactly one
      more square, and a retraction of it burns one fewer. */
  lemma ApplyBurnsOne(g: Grid, m: Move, piece: int)
    requires g.WellFormed() && g.OnBoard(m.x1, m.y1) && g.OnBoard(m.x2, m.y2)
    requires g.At(m.x1, m.y1) == piece && g.At(m.x2, m.y2) == Empty && piece != Empty && piece != Burned
    ensures Count(Apply(g, m, piece), Burned) == Count(g, Burned) + 1
    ensures Count(Retract(Apply(g, m, piece), m, piece), Burned) == Count(g, Burned)
  {
    var g1 := g.Set(m.x1, m.y1, Burned);
    CountSet(g, Burned, m.x1, m.y1, Burned);
    CountSet(g1, Burned, m.x2, m.y2, piece);
    RetractUndoesApply(g, m, piece);
  }
}
