/** Zobrist hashing of a board: a 64-bit key per (column, row, tag), where the
    tag is 1 for a white queen, 2 for a black queen and 3 for a burned square.
    The hash of a board is the exclusive-or of the keys of its non-empty cells. */
module Zobrist {
  import opened Board
  import opened Bitwise

  /** The 11 x 11 x 4 key table, flattened. The source fills it once from a
      generator with a fixed seed and shares it between all states; here it is
      any fixed table, and every property below holds whatever its contents. */
  type KeyTable = t: seq<Word> | |t| == 484 witness seq(484, _ => 0)

  function Key(keys: KeyTable, x: int, y: int, tag: int): Word
    requires 0 <= x <= 10 && 0 <= y <= 10 && 0 <= tag <= 3
  {
    keys[44 * x + 4 * y + tag]
  }

  /** The tag a cell value contributes under; 0 contributes nothing. */
  function Tag(v: int): (t: int)
    ensures 0 <= t <= 3
    ensures t == 0 <==> v != White && v != Black && v != Burned
  {
    if v == White then 1 else if v == Black then 2 else if v == Burned then 3 else 0
  }

  function CellKey(keys: KeyTable, x: int, y: int, v: int): Word
    requires 0 <= x <= 10 && 0 <= y <= 10
  {
    if Tag(v) == 0 then 0 else Key(keys, x, y, Tag(v))
  }

  /** Exclusive-or of the keys of column x, rows 0 .. |col| - 1; like every
      key, it fits in a long. */
  function ColumnHash(keys: KeyTable, x: int, col: seq<int>): (h: nat)
    requires 0 <= x <= 10 && |col| <= 11
    ensures h < LongRange
  {
    if col == [] then 0
    else
      var rest, last := ColumnHash(keys, x, col[..|col| - 1]), CellKey(keys, x, |col| - 1, col[|col| - 1]);
      XorWord(rest, last);
      Xor(rest, last)
  }

  predicate Shaped(cols: seq<seq<int>>) {
    |cols| <= 11 && forall x :: 0 <= x < |cols| ==> |cols[x]| <= 11
  }

  /** Exclusive-or of the column hashes of columns 0 .. |cols| - 1, a long. */
  function ColumnsHash(keys: KeyTable, cols: seq<seq<int>>): (h: nat)
    requires Shaped(cols)
    ensures h < LongRange
  {
    if cols == [] then 0
    else
      var rest, last := ColumnsHash(keys, cols[..|cols| - 1]), ColumnHash(keys, |cols| - 1, cols[|cols| - 1]);
      XorWord(rest, last);
      Xor(rest, last)
  }

  /** The hash a board should carry, computed from scratch: a long. */
  function HashOf(keys: KeyTable, g: Grid): (h: nat)
    requires g.WellFormed()
    ensures h < LongRange
  {
    ColumnsHash(keys, g.cells)
  }

  /** The three updates applyMove makes: lift the piece from the source, burn
      the source, put the piece on the destination. */
  function ApplyHash(keys: KeyTable, h: nat, m: Move, piece: int): nat
    requires 0 <= m.x1 <= 10 && 0 <= m.y1 <= 10 && 0 <= m.x2 <= 10 && 0 <= m.y2 <= 10
    requires piece == White || piece == Black
  {
    Xor(Xor(Xor(h, Key(keys, m.x1, m.y1, piece)), Key(keys, m.x1, m.y1, 3)), Key(keys, m.x2, m.y2, piece))
  }

  /** The three updates retractMove makes, in its order: clear the destination,
      unburn the source, put the piece back on the source. */
  function RetractHash(keys: KeyTable, h: nat, m: Move, piece: int): (r: nat)
    requires 0 <= m.x1 <= 10 && 0 <= m.y1 <= 10 && 0 <= m.x2 <= 10 && 0 <= m.y2 <= 10
    requires piece == White || piece == Black
    ensures ApplyHash(keys, r, m, piece) == h
  {
    XorUndo(h, Key(keys, m.x1, m.y1, piece), Key(keys, m.x1, m.y1, 3), Key(keys, m.x2, m.y2, piece));
    Xor(Xor(Xor(h, Key(keys, m.x2, m.y2, piece)), Key(keys, m.x1, m.y1, 3)), Key(keys, m.x1, m.y1, piece))
  }

  /** Applying then retracting the same move restores any hash, whatever the board. */
  lemma RetractRestoresHash(keys: KeyTable, h: nat, m: Move, piece: int)
    requires 0 <= m.x1 <= 10 && 0 <= m.y1 <= 10 && 0 <= m.x2 <= 10 && 0 <= m.y2 <= 10
    requires piece == White || piece == Black
    ensures RetractHash(keys, ApplyHash(keys, h, m, piece), m, piece) == h
  {
    XorUndo(h, Key(keys, m.x2, m.y2, piece), Key(keys, m.x1, m.y1, 3), Key(keys, m.x1, m.y1, piece));
  }

  /** Changing one cell of a column changes its hash by the old and the new key. */
  lemma {:induction false} ColumnHashSet(keys: KeyTable, x: int, col: seq<int>, y: int, v: int)
    requires 0 <= x <= 10 && |col| <= 11 && 0 <= y < |col|
    ensures ColumnHash(keys, x, col[y := v]) ==
            Xor(ColumnHash(keys, x, col), Xor(CellKey(keys, x, y, col[y]), CellKey(keys, x, y, v)))
    decreases |col|
  {
    var n := |col| - 1;
    var col' := col[y := v];
    var before, after := CellKey(keys, x, y, col[y]), CellKey(keys, x, y, v);
    var l := ColumnHash(keys, x, col[..n]);
    if y == n {
      assert col'[..n] == col[..n];
      XorAssoc(l, before, Xor(before, after));
      XorCancel(after, before);
    } else {
      assert col'[..n] == col[..n][y := v];
      ColumnHashSet(keys, x, col[..n], y, v);
      XorSwap(l, Xor(before, after), CellKey(keys, x, n, col[n]));
    }
  }

  /** Replacing one column changes the board hash by the old and the new column hash. */
  lemma {:induction false} ColumnsHashSet(keys: KeyTable, cols: seq<seq<int>>, x: int, col: seq<int>)
    requires Shaped(cols) && 0 <= x < |cols| && |col| <= 11
    ensures ColumnsHash(keys, cols[x := col]) ==
            Xor(ColumnsHash(keys, cols), Xor(ColumnHash(keys, x, cols[x]), ColumnHash(keys, x, col)))
    decreases |cols|
  {
    var n := |cols| - 1;
    var cols' := cols[x := col];
    var before, after := ColumnHash(keys, x, cols[x]), ColumnHash(keys, x, col);
    var l, l' := ColumnsHash(keys, cols[..n]), ColumnsHash(keys, cols'[..n]);
    assert ColumnsHash(keys, cols) == Xor(l, ColumnHash(keys, n, cols[n]));
    assert ColumnsHash(keys, cols') == Xor(l', ColumnHash(keys, n, cols'[n]));
    if x == n {
      assert cols'[..n] == cols[..n];
      XorAssoc(l, before, Xor(before, after));
      XorCancel(after, before);
    } else {
      assert cols'[..n] == cols[..n][x := col];
      ColumnsHashSet(keys, cols[..n], x, col);
      XorSwap(l, Xor(before, after), ColumnHash(keys, n, cols[n]));
    }
  }

  /** Writing v into one cell changes the from-scratch hash by exactly the old and the new key of that cell. */
  lemma HashOfSet(keys: KeyTable, g: Grid, x: int, y: int, v: int)
    requires g.WellFormed() && g.InArray(x, y)
    ensures HashOf(keys, g.Set(x, y, v)) == Xor(HashOf(keys, g), Xor(CellKey(keys, x, y, g.At(x, y)), CellKey(keys, x, y, v)))
  {
    var col := g.cells[x];
    var d := Xor(CellKey(keys, x, y, col[y]), CellKey(keys, x, y, v));
    ColumnHashSet(keys, x, col, y, v);
    ColumnsHashSet(keys, g.cells, x, col[y := v]);
    XorCancel(d, ColumnHash(keys, x, col));
    XorAssoc(ColumnHash(keys, x, col), ColumnHash(keys, x, col), d);
  }

  /** Hash invariant, applyMove: on a move whose source holds the mover's piece and whose
      destination is empty, the three incremental updates agree with recomputing from scratch. */
  lemma ApplyKeepsHash(keys: KeyTable, g: Grid, m: Move, piece: int)
    requires g.WellFormed() && MoveInArray(g, m) && (piece == White || piece == Black)
    requires g.At(m.x1, m.y1) == piece && g.At(m.x2, m.y2) == Empty
    ensures HashOf(keys, Apply(g, m, piece)) == ApplyHash(keys, HashOf(keys, g), m, piece)
  {
    var h := HashOf(keys, g);
    var k1 := Key(keys, m.x1, m.y1, piece);
    var k3 := Key(keys, m.x1, m.y1, 3);
    var k2 := Key(keys, m.x2, m.y2, piece);
    var g1 := g.Set(m.x1, m.y1, Burned);
    HashOfSet(keys, g, m.x1, m.y1, Burned);
    HashOfSet(keys, g1, m.x2, m.y2, piece);
    XorZero(k2);
    XorAssoc(h, k1, k3);
  }

  /** Hash invariant, retractMove: on a move whose source is burned and whose destination
      holds the mover's piece, the three updates agree with recomputing from scratch. */
  lemma RetractKeepsHash(keys: KeyTable, g: Grid, m: Move, piece: int)
    requires g.WellFormed() && MoveInArray(g, m) && (piece == White || piece == Black)
    requires g.At(m.x1, m.y1) == Burned && g.At(m.x2, m.y2) == piece
    ensures HashOf(keys, Retract(g, m, piece)) == RetractHash(keys, HashOf(keys, g), m, piece)
  {
    var g0 := Retract(g, m, piece);
    ApplyUndoesRetract(g, m, piece);
    ApplyKeepsHash(keys, g0, m, piece);
    RetractRestoresHash(keys, HashOf(keys, g0), m, piece);
  }

  /** A board with no pieces and no burned squares hashes to 0. */
  lemma EmptyHash(keys: KeyTable, w: int, h: int)
    requires 0 <= w <= 10 && 0 <= h <= 10
    ensures HashOf(keys, EmptyGrid(w, h)) == 0
  {
    EmptyColumns(keys, EmptyGrid(w, h).cells);
  }

  lemma {:induction false} EmptyColumn(keys: KeyTable, x: int, col: seq<int>)
    requires 0 <= x <= 10 && |col| <= 11
    requires forall y :: 0 <= y < |col| ==> col[y] == Empty
    ensures ColumnHash(keys, x, col) == 0
    decreases |col|
  {
    if col != [] {
      EmptyColumn(keys, x, col[..|col| - 1]);
      XorZero(0);
    }
  }

  lemma {:induction false} EmptyColumns(keys: KeyTable, cols: seq<seq<int>>)
    requires Shaped(cols)
    requires forall x, y :: 0 <= x < |cols| && 0 <= y < |cols[x]| ==> cols[x][y] == Empty
    ensures ColumnsHash(keys, cols) == 0
    decreases |cols|
  {
    if cols != [] {
      EmptyColumns(keys, cols[..|cols| - 1]);
      EmptyColumn(keys, |cols| - 1, cols[|cols| - 1]);
      XorZero(0);
    }
  }

  /** The hash the constructor accumulates: one key per listed position. */
  function PlacementHash(keys: KeyTable, h: nat, ps: seq<Cell>, piece: int): nat
    requires forall k :: 0 <= k < |ps| ==> 0 <= ps[k].0 <= 10 && 0 <= ps[k].1 <= 10
    requires piece == White || piece == Black
    decreases |ps|
  {
    if ps == [] then h else PlacementHash(keys, Xor(h, Key(keys, ps[0].0, ps[0].1, piece)), ps[1..], piece)
  }

  /** Placing distinct pieces on empty cells keeps the incrementally built hash equal to the from-scratch one. */
  lemma {:induction false} PlaceKeepsHash(keys: KeyTable, g: Grid, h: nat, ps: seq<Cell>, piece: int)
    requires g.WellFormed() && (piece == White || piece == Black)
    requires forall k :: 0 <= k < |ps| ==> g.InArray(ps[k].0, ps[k].1) && g.At(ps[k].0, ps[k].1) == Empty
    requires Distinct(ps) && h == HashOf(keys, g)
    ensures forall k :: 0 <= k < |ps| ==> 0 <= ps[k].0 <= 10 && 0 <= ps[k].1 <= 10
    ensures PlacementHash(keys, h, ps, piece) == HashOf(keys, Place(g, ps, piece))
    decreases |ps|
  {
    if ps != [] {
      var g1 := g.Set(ps[0].0, ps[0].1, piece);
      HashOfSet(keys, g, ps[0].0, ps[0].1, piece);
      XorZero(Key(keys, ps[0].0, ps[0].1, piece));
      assert forall k :: 0 <= k < |ps[1..]| ==> ps[1..][k] == ps[k + 1] && ps[k + 1] != ps[0];
      PlaceKeepsHash(keys, g1, Xor(h, Key(keys, ps[0].0, ps[0].1, piece)), ps[1..], piece);
    }
  }

  /** Hash invariant, constructor: with all positions distinct, the accumulated hash of
      the initial board equals the hash recomputed from scratch. */
  lemma InitialHash(keys: KeyTable, w: int, h: int, whites: seq<Cell>, blacks: seq<Cell>)
    requires 0 <= w <= 10 && 0 <= h <= 10
    requires forall k :: 0 <= k < |whites| ==> 0 <= whites[k].0 <= w && 0 <= whites[k].1 <= h
    requires forall k :: 0 <= k < |blacks| ==> 0 <= blacks[k].0 <= w && 0 <= blacks[k].1 <= h
    requires Distinct(whites + blacks)
    ensures PlacementHash(keys, PlacementHash(keys, 0, whites, White), blacks, Black) == HashOf(keys, InitialGrid(w, h, whites, blacks))
  {
    var g0 := EmptyGrid(w, h);
    EmptyHash(keys, w, h);
    assert Distinct(whites) by {
      forall a, b | 0 <= a < b < |whites| ensures whites[a] != whites[b] {
        assert (whites + blacks)[a] == whites[a] && (whites + blacks)[b] == whites[b];
      }
    }
    PlaceKeepsHash(keys, g0, 0, whites, White);
    var g1 := Place(g0, whites, White);
    assert Distinct(blacks) by {
      forall a, b | 0 <= a < b < |blacks| ensures blacks[a] != blacks[b] {
        assert (whites + blacks)[|whites| + a] == blacks[a] && (whites + blacks)[|whites| + b] == blacks[b];
      }
    }
    forall k | 0 <= k < |blacks| ensures g1.At(blacks[k].0, blacks[k].1) == Empty {
      forall a | 0 <= a < |whites| ensures whites[a] != blacks[k] {
        assert (whites + blacks)[a] == whites[a] && (whites + blacks)[|whites| + k] == blacks[k];
      }
    }
    PlaceKeepsHash(keys, g1, PlacementHash(keys, 0, whites, White), blacks, Black);
  }
}
