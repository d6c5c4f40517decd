/** The breadth-first search of QueenBattleState.bfs and the territory count
    of calculateBFSTerritory, as functions on a Grid that follow the source's
    loops step by step: the seeding loops, the queue loop, the eight
    directions, and the distances along one ray. A Sweep is what the array
    queue and the distance array hold at one point of the search. */
module Distances {
  import opened Board
  import opened MoveGen

  /** The distance of a square no queen has reached yet. */
  const Unreached := -1

  /** The distance array dists[x][y] and the cells the queue has taken in so
      far, in order (qArr[2k], qArr[2k + 1] is the k-th). */
  datatype Sweep = Sweep(dist: seq<seq<int>>, queue: seq<Cell>)

  /** A distance array of the board array's shape. */
  predicate Shaped(g: Grid, dist: seq<seq<int>>) {
    |dist| == g.width + 1 && forall x :: 0 <= x < |dist| ==> |dist[x]| == g.height + 1
  }

  /** The distance array after calculateBFSTerritory's reset. */
  function Unset(g: Grid): (dist: seq<seq<int>>)
    requires g.WellFormed()
    ensures Shaped(g, dist)
    ensures forall x, y :: 0 <= x <= g.width && 0 <= y <= g.height ==> dist[x][y] == Unreached
  {
    seq(g.width + 1, _ => seq(g.height + 1, _ => Unreached))
  }

  function Mark(dist: seq<seq<int>>, c: Cell, v: int): (r: seq<seq<int>>)
    requires 0 <= c.0 < |dist| && 0 <= c.1 < |dist[c.0]|
    ensures |r| == |dist| && forall x :: 0 <= x < |r| ==> |r[x]| == |dist[x]|
  {
    dist[c.0 := dist[c.0][c.1 := v]]
  }

  /** Record distance v for the square c and append c to the queue. */
  function Enqueue(s: Sweep, c: Cell, v: int): Sweep
    requires 0 <= c.0 < |s.dist| && 0 <= c.1 < |s.dist[c.0]|
  {
    Sweep(Mark(s.dist, c, v), s.queue + [c])
  }

  /** How many of rows 1 .. n of one column are still unreached. */
  function Pending(col: seq<int>, n: int): nat
    requires 0 <= n < |col|
  {
    if n == 0 then 0 else Pending(col, n - 1) + (if col[n] == Unreached then 1 else 0)
  }

  /** How many squares of columns 1 .. n are still unreached. */
  function Unvisited(g: Grid, dist: seq<seq<int>>, n: int): nat
    requires g.WellFormed() && Shaped(g, dist) && 0 <= n <= g.width
  {
    if n == 0 then 0 else Unvisited(g, dist, n - 1) + Pending(dist[n], g.height)
  }

  /** What every step of the search keeps true and the array queue relies on:
      every queued cell is a square of the board with a distance, and the
      queued squares and the unreached squares together are all width *
      height squares, so the queue never outgrows qArr. */
  ghost predicate Accounted(g: Grid, s: Sweep)
    requires g.WellFormed()
  {
    && Shaped(g, s.dist)
    && (forall k :: 0 <= k < |s.queue| ==> g.OnBoard(s.queue[k].0, s.queue[k].1))
    && (forall k :: 0 <= k < |s.queue| ==> s.dist[s.queue[k].0][s.queue[k].1] >= 0)
    && Unvisited(g, s.dist, g.width) + |s.queue| == g.width * g.height
  }

  /** What the queue loop keeps true: the account above, and besides every
      square with a distance has been queued and no square is queued twice. */
  ghost predicate Consistent(g: Grid, s: Sweep)
    requires g.WellFormed()
  {
    && Shaped(g, s.dist)
    && (forall k :: 0 <= k < |s.queue| ==> g.OnBoard(s.queue[k].0, s.queue[k].1))
    && (forall k :: 0 <= k < |s.queue| ==> s.dist[s.queue[k].0][s.queue[k].1] >= 0)
    && Unvisited(g, s.dist, g.width) + |s.queue| == g.width * g.height
    && (forall x, y :: g.OnBoard(x, y) && s.dist[x][y] != Unreached ==> (x, y) in s.queue)
    && Distinct(s.queue)
  }

  /** The account bounds the queue by the number of squares. */
  lemma AccountedBound(g: Grid, s: Sweep)
    requires g.WellFormed() && Accounted(g, s)
    ensures |s.queue| <= g.width * g.height
  {
  }

  lemma ConsistentAccounted(g: Grid, s: Sweep)
    requires g.WellFormed() && Consistent(g, s)
    ensures Accounted(g, s)
  {
  }

  /** r continues s: the queue only grows at its end, a square keeps a
      distance once it has one, and squares that are not empty keep theirs. */
  ghost predicate Grows(g: Grid, s: Sweep, r: Sweep)
    requires g.WellFormed() && Shaped(g, s.dist) && Shaped(g, r.dist)
  {
    && |s.queue| <= |r.queue| && r.queue[..|s.queue|] == s.queue
    && forall x, y :: g.OnBoard(x, y) && (s.dist[x][y] != Unreached || g.At(x, y) != Empty) ==>
         r.dist[x][y] == s.dist[x][y]
  }

  lemma {:induction false} PendingMark(col: seq<int>, n: int, y: int, v: int)
    requires 0 <= n < |col| && 0 <= y < |col| && col[y] == Unreached && v != Unreached
    ensures Pending(col[y := v], n) == Pending(col, n) - (if 1 <= y <= n then 1 else 0)
    decreases n
  {
    if n > 0 {
      PendingMark(col, n - 1, y, v);
    }
  }

  /** Giving an unreached square a distance leaves one unreached square fewer. */
  lemma {:induction false} UnvisitedMark(g: Grid, dist: seq<seq<int>>, n: int, c: Cell, v: int)
    requires g.WellFormed() && Shaped(g, dist) && 0 <= n <= g.width && g.OnBoard(c.0, c.1)
    requires dist[c.0][c.1] == Unreached && v != Unreached
    ensures Shaped(g, Mark(dist, c, v))
    ensures Unvisited(g, Mark(dist, c, v), n) == Unvisited(g, dist, n) - (if c.0 <= n then 1 else 0)
    decreases n
  {
    if n > 0 {
      UnvisitedMark(g, dist, n - 1, c, v);
      if n == c.0 {
        PendingMark(dist[n], g.height, c.1, v);
      } else {
        assert Mark(dist, c, v)[n] == dist[n];
      }
    }
  }

  lemma {:induction false} PendingAll(col: seq<int>, n: int)
    requires 0 <= n < |col| && forall y :: 0 <= y < |col| ==> col[y] == Unreached
    ensures Pending(col, n) == n
    decreases n
  {
    if n > 0 {
      PendingAll(col, n - 1);
    }
  }

  /** Before the search every square of columns 1 .. n is unreached. */
  lemma {:induction false} UnvisitedAll(g: Grid, n: int)
    requires g.WellFormed() && 0 <= n <= g.width
    ensures Unvisited(g, Unset(g), n) == n * g.height
    decreases n
  {
    if n > 0 {
      UnvisitedAll(g, n - 1);
      PendingAll(Unset(g)[n], g.height);
      assert (n - 1) * g.height + g.height == n * g.height;
    }
  }

  /** The search starts consistent: nothing queued, nothing reached. */
  lemma StartConsistent(g: Grid)
    requires g.WellFormed()
    ensures Consistent(g, Sweep(Unset(g), []))
  {
    UnvisitedAll(g, g.width);
  }

  /** Queueing an unreached square with a distance keeps the search consistent. */
  lemma EnqueueConsistent(g: Grid, s: Sweep, t: Cell, v: int)
    requires g.WellFormed() && Consistent(g, s) && g.OnBoard(t.0, t.1)
    requires s.dist[t.0][t.1] == Unreached && v >= 0
    ensures Consistent(g, Enqueue(s, t, v))
  {
    var r := Enqueue(s, t, v);
    UnvisitedMark(g, s.dist, g.width, t, v);
    forall x, y | g.OnBoard(x, y) && r.dist[x][y] != Unreached ensures (x, y) in r.queue {
      if (x, y) != t {
        assert s.dist[x][y] == r.dist[x][y];
      }
    }
    assert t !in s.queue;
  }

  /** Queueing an unreached square with a distance keeps the account, and
      there was room for it. */
  lemma EnqueueAccounted(g: Grid, s: Sweep, t: Cell, v: int)
    requires g.WellFormed() && Accounted(g, s) && g.OnBoard(t.0, t.1)
    requires s.dist[t.0][t.1] == Unreached && v >= 0
    ensures |s.queue| < g.width * g.height
    ensures Accounted(g, Enqueue(s, t, v))
  {
    var r := Enqueue(s, t, v);
    UnvisitedMark(g, s.dist, g.width, t, v);
    forall k | 0 <= k < |r.queue| ensures r.dist[r.queue[k].0][r.queue[k].1] >= 0 {
      if k < |s.queue| {
        assert s.queue[k] != t;
      }
    }
  }

  /** Queueing an empty unreached square only adds to the search. */
  lemma EnqueueGrows(g: Grid, s: Sweep, t: Cell, v: int)
    requires g.WellFormed() && Shaped(g, s.dist) && g.OnBoard(t.0, t.1)
    requires s.dist[t.0][t.1] == Unreached && g.At(t.0, t.1) == Empty
    ensures Shaped(g, Enqueue(s, t, v).dist) && Grows(g, s, Enqueue(s, t, v))
  {
    assert Enqueue(s, t, v).queue[..|s.queue|] == s.queue;
  }

  /** Every sweep continues itself. */
  lemma GrowsRefl(g: Grid, s: Sweep)
    requires g.WellFormed() && Shaped(g, s.dist)
    ensures Grows(g, s, s)
  {
    assert s.queue[..|s.queue|] == s.queue;
  }

  lemma GrowsTrans(g: Grid, s: Sweep, m: Sweep, r: Sweep)
    requires g.WellFormed() && Shaped(g, s.dist) && Shaped(g, m.dist) && Shaped(g, r.dist)
    requires Grows(g, s, m) && Grows(g, m, r)
    ensures Grows(g, s, r)
  {
    assert r.queue[..|s.queue|] == r.queue[..|m.queue|][..|s.queue|];
  }

  // ---------------------------------------------------------------------
  // The queue loop.

  /** The `dist` loop for one direction from the queued square c at distance
      d, from distance k on: every open square along the ray that has no
      distance yet gets d + 1 and is queued; the ray stops at the first square
      off the board or not empty. */
  function ExpandRay(g: Grid, s: Sweep, c: Cell, dir: int, k: int, d: int): (r: Sweep)
    requires g.WellFormed() && Shaped(g, s.dist) && g.OnBoard(c.0, c.1) && 0 <= dir < 8 && k >= 1
    ensures Shaped(g, r.dist)
    decreases 11 - k
  {
    var t := Target(c.0, c.1, dir, k);
    if Open(g, t) then
      OpenNear(g, c.0, c.1, dir, k);
      ExpandRay(g, RayStep(g, s, t, d), c, dir, k + 1, d)
    else
      s
  }

  /** The sweep a ray step hands to the next square of the ray. */
  function RayStep(g: Grid, s: Sweep, t: Cell, d: int): Sweep
    requires g.WellFormed() && Shaped(g, s.dist) && g.OnBoard(t.0, t.1)
  {
    if s.dist[t.0][t.1] == Unreached then Enqueue(s, t, d + 1) else s
  }

  lemma ExpandRayUnfold(g: Grid, s: Sweep, c: Cell, dir: int, k: int, d: int)
    requires g.WellFormed() && Shaped(g, s.dist) && g.OnBoard(c.0, c.1) && 0 <= dir < 8 && k >= 1
    requires Open(g, Target(c.0, c.1, dir, k))
    ensures k <= 10 && g.OnBoard(Target(c.0, c.1, dir, k).0, Target(c.0, c.1, dir, k).1)
    ensures Shaped(g, RayStep(g, s, Target(c.0, c.1, dir, k), d).dist)
    ensures ExpandRay(g, s, c, dir, k, d) == ExpandRay(g, RayStep(g, s, Target(c.0, c.1, dir, k), d), c, dir, k + 1, d)
  {
    OpenNear(g, c.0, c.1, dir, k);
  }

  /** A ray ends at the first square that is not open. */
  lemma ExpandRayBlocked(g: Grid, s: Sweep, c: Cell, dir: int, k: int, d: int)
    requires g.WellFormed() && Shaped(g, s.dist) && g.OnBoard(c.0, c.1) && 0 <= dir < 8 && k >= 1
    requires !Open(g, Target(c.0, c.1, dir, k))
    ensures ExpandRay(g, s, c, dir, k, d) == s
  {
  }

  /** Expanding a ray keeps the search consistent. */
  lemma {:induction false} ExpandRayConsistent(g: Grid, s: Sweep, c: Cell, dir: int, k: int, d: int)
    requires g.WellFormed() && Consistent(g, s) && g.OnBoard(c.0, c.1) && 0 <= dir < 8 && k >= 1 && d >= 0
    ensures Consistent(g, ExpandRay(g, s, c, dir, k, d))
    decreases 11 - k
  {
    var t := Target(c.0, c.1, dir, k);
    if Open(g, t) {
      ExpandRayUnfold(g, s, c, dir, k, d);
      if s.dist[t.0][t.1] == Unreached {
        EnqueueConsistent(g, s, t, d + 1);
      }
      ExpandRayConsistent(g, RayStep(g, s, t, d), c, dir, k + 1, d);
    }
  }

  /** Expanding a ray only adds to the search. */
  lemma {:induction false} ExpandRayGrows(g: Grid, s: Sweep, c: Cell, dir: int, k: int, d: int)
    requires g.WellFormed() && Shaped(g, s.dist) && g.OnBoard(c.0, c.1) && 0 <= dir < 8 && k >= 1
    ensures Grows(g, s, ExpandRay(g, s, c, dir, k, d))
    decreases 11 - k
  {
    var t := Target(c.0, c.1, dir, k);
    if Open(g, t) {
      ExpandRayUnfold(g, s, c, dir, k, d);
      var m := RayStep(g, s, t, d);
      if s.dist[t.0][t.1] == Unreached {
        EnqueueGrows(g, s, t, d + 1);
      } else {
        GrowsRefl(g, s);
      }
      ExpandRayGrows(g, m, c, dir, k + 1, d);
      GrowsTrans(g, s, m, ExpandRay(g, m, c, dir, k + 1, d));
    } else {
      ExpandRayBlocked(g, s, c, dir, k, d);
      GrowsRefl(g, s);
    }
  }

  /** Expanding a ray keeps the account. */
  lemma {:induction false} ExpandRayAccounted(g: Grid, s: Sweep, c: Cell, dir: int, k: int, d: int)
    requires g.WellFormed() && Accounted(g, s) && g.OnBoard(c.0, c.1) && 0 <= dir < 8 && k >= 1 && d >= 0
    ensures Accounted(g, ExpandRay(g, s, c, dir, k, d))
    decreases 11 - k
  {
    var t := Target(c.0, c.1, dir, k);
    if Open(g, t) {
      ExpandRayUnfold(g, s, c, dir, k, d);
      if s.dist[t.0][t.1] == Unreached {
        EnqueueAccounted(g, s, t, d + 1);
      }
      ExpandRayAccounted(g, RayStep(g, s, t, d), c, dir, k + 1, d);
    }
  }

  /** The `dirs` loop: the rays of directions 0 .. n - 1 from c, in order. */
  function ExpandDirs(g: Grid, s: Sweep, c: Cell, d: int, n: int): (r: Sweep)
    requires g.WellFormed() && Shaped(g, s.dist) && g.OnBoard(c.0, c.1) && 0 <= n <= 8
    ensures Shaped(g, r.dist)
  {
    if n == 0 then s else ExpandRay(g, ExpandDirs(g, s, c, d, n - 1), c, n - 1, 1, d)
  }

  lemma ExpandDirsStep(g: Grid, s: Sweep, c: Cell, d: int, n: int)
    requires g.WellFormed() && Shaped(g, s.dist) && g.OnBoard(c.0, c.1) && 0 < n <= 8
    ensures ExpandDirs(g, s, c, d, n) == ExpandRay(g, ExpandDirs(g, s, c, d, n - 1), c, n - 1, 1, d)
  {
  }

  lemma {:induction false} ExpandDirsConsistent(g: Grid, s: Sweep, c: Cell, d: int, n: int)
    requires g.WellFormed() && Consistent(g, s) && g.OnBoard(c.0, c.1) && d >= 0 && 0 <= n <= 8
    ensures Consistent(g, ExpandDirs(g, s, c, d, n))
    decreases n
  {
    if n > 0 {
      ExpandDirsStep(g, s, c, d, n);
      ExpandDirsConsistent(g, s, c, d, n - 1);
      ExpandRayConsistent(g, ExpandDirs(g, s, c, d, n - 1), c, n - 1, 1, d);
    }
  }

  lemma {:induction false} ExpandDirsGrows(g: Grid, s: Sweep, c: Cell, d: int, n: int)
    requires g.WellFormed() && Shaped(g, s.dist) && g.OnBoard(c.0, c.1) && 0 <= n <= 8
    ensures Grows(g, s, ExpandDirs(g, s, c, d, n))
    decreases n
  {
    if n == 0 {
      GrowsRefl(g, s);
    } else {
      var m := ExpandDirs(g, s, c, d, n - 1);
      ExpandDirsStep(g, s, c, d, n);
      ExpandDirsGrows(g, s, c, d, n - 1);
      ExpandRayGrows(g, m, c, n - 1, 1, d);
      GrowsTrans(g, s, m, ExpandRay(g, m, c, n - 1, 1, d));
    }
  }
  /** The `dirs` loop keeps the account and only lengthens the queue. */
  lemma ExpandDirsKeeps(g: Grid, s: Sweep, c: Cell, d: int, n: int)
    requires g.WellFormed() && Accounted(g, s) && g.OnBoard(c.0, c.1) && d >= 0 && 0 <= n <= 8
    ensures Accounted(g, ExpandDirs(g, s, c, d, n))
    ensures |s.queue| <= |ExpandDirs(g, s, c, d, n).queue|
  {
    ExpandDirsAccounted(g, s, c, d, n);
    ExpandDirsGrows(g, s, c, d, n);
  }


  lemma {:induction false} ExpandDirsAccounted(g: Grid, s: Sweep, c: Cell, d: int, n: int)
    requires g.WellFormed() && Accounted(g, s) && g.OnBoard(c.0, c.1) && d >= 0 && 0 <= n <= 8
    ensures Accounted(g, ExpandDirs(g, s, c, d, n))
    decreases n
  {
    if n > 0 {
      ExpandDirsStep(g, s, c, d, n);
      ExpandDirsAccounted(g, s, c, d, n - 1);
      ExpandRayAccounted(g, ExpandDirs(g, s, c, d, n - 1), c, n - 1, 1, d);
    }
  }

  /** The `while (head < tail)` loop, from queue position head on: take the
      next queued square and expand it at its own distance. The queue never
      holds more than width * height squares, so the loop ends. */
  function Drain(g: Grid, s: Sweep, head: int): (r: Sweep)
    requires g.WellFormed() && Accounted(g, s) && 0 <= head <= |s.queue|
    ensures Shaped(g, r.dist)
    decreases g.width * g.height - head
  {
    if head == |s.queue| then s
    else
      var c := s.queue[head];
      ExpandDirsAccounted(g, s, c, s.dist[c.0][c.1], 8);
      ExpandDirsGrows(g, s, c, s.dist[c.0][c.1], 8);
      Drain(g, ExpandDirs(g, s, c, s.dist[c.0][c.1], 8), head + 1)
  }

  /** The queue loop ends with the sweep it has when head reaches the tail. */
  lemma DrainDone(g: Grid, s: Sweep, head: int)
    requires g.WellFormed() && Accounted(g, s) && head == |s.queue|
    ensures Drain(g, s, head) == s
  {
  }

  /** drain stands for Drain on the grid g wherever Drain is defined; the
      imperative queue loop is proved against such a stand-in, so that its
      proof meets Drain only at the steps that need it. */
  ghost predicate DrainsAs(g: Grid, drain: (Sweep, int) -> Sweep, s: Sweep, head: int)
  {
    g.WellFormed() && Accounted(g, s) && 0 <= head <= |s.queue| ==> drain(s, head) == Drain(g, s, head)
  }

  /** A stand-in for Drain also leaves the sweep as it is once the queue is
      exhausted. */
  lemma DrainsAsDone(g: Grid, drain: (Sweep, int) -> Sweep, s: Sweep, head: int)
    requires forall s', h :: DrainsAs(g, drain, s', h)
    requires g.WellFormed() && Accounted(g, s) && head == |s.queue|
    ensures drain(s, head) == s
  {
    assert DrainsAs(g, drain, s, head);
    DrainDone(g, s, head);
  }

  /** One turn of the queue loop: the square at head is expanded at its own
      distance, and the search goes on from the next one. */
  lemma DrainStep(g: Grid, s: Sweep, head: int)
    requires g.WellFormed() && Accounted(g, s) && 0 <= head < |s.queue|
    ensures g.OnBoard(s.queue[head].0, s.queue[head].1) && s.dist[s.queue[head].0][s.queue[head].1] >= 0
    ensures Accounted(g, ExpandDirs(g, s, s.queue[head], s.dist[s.queue[head].0][s.queue[head].1], 8))
    ensures head < |ExpandDirs(g, s, s.queue[head], s.dist[s.queue[head].0][s.queue[head].1], 8).queue|
    ensures Drain(g, s, head) ==
            Drain(g, ExpandDirs(g, s, s.queue[head], s.dist[s.queue[head].0][s.queue[head].1], 8), head + 1)
  {
    var c := s.queue[head];
    ExpandDirsAccounted(g, s, c, s.dist[c.0][c.1], 8);
    ExpandDirsGrows(g, s, c, s.dist[c.0][c.1], 8);
  }

  lemma {:induction false} DrainGrows(g: Grid, s: Sweep, head: int)
    requires g.WellFormed() && Consistent(g, s) && 0 <= head <= |s.queue|
    ensures Accounted(g, s)
    ensures Consistent(g, Drain(g, s, head)) && Grows(g, s, Drain(g, s, head))
    decreases g.width * g.height - head
  {
    ConsistentAccounted(g, s);
    if head == |s.queue| {
      GrowsRefl(g, s);
    } else {
      var c := s.queue[head];
      var m := ExpandDirs(g, s, c, s.dist[c.0][c.1], 8);
      DrainStep(g, s, head);
      ExpandDirsConsistent(g, s, c, s.dist[c.0][c.1], 8);
      ExpandDirsGrows(g, s, c, s.dist[c.0][c.1], 8);
      DrainGrows(g, m, head + 1);
      GrowsTrans(g, s, m, Drain(g, m, head + 1));
    }
  }

  // ---------------------------------------------------------------------
  // Seeding: every square holding the searched piece starts at distance 0.

  /** The `j` loop of the seeding: squares (x, 1) .. (x, n) holding p are given
      distance 0 and queued. */
  function SeedColumn(g: Grid, p: int, s: Sweep, x: int, n: int): (r: Sweep)
    requires g.WellFormed() && Shaped(g, s.dist) && 1 <= x <= g.width && 0 <= n <= g.height
    ensures Shaped(g, r.dist)
  {
    if n == 0 then s
    else
      var m := SeedColumn(g, p, s, x, n - 1);
      if g.At(x, n) == p then Enqueue(m, (x, n), 0) else m
  }

  /** Seeding a column gives exactly its squares holding p distance 0 and
      only appends to the queue. */
  lemma {:induction false} SeedColumnDist(g: Grid, p: int, s: Sweep, x: int, n: int)
    requires g.WellFormed() && Shaped(g, s.dist) && 1 <= x <= g.width && 0 <= n <= g.height
    ensures |s.queue| <= |SeedColumn(g, p, s, x, n).queue|
    ensures SeedColumn(g, p, s, x, n).queue[..|s.queue|] == s.queue
    ensures forall i, j :: g.OnBoard(i, j) ==>
              SeedColumn(g, p, s, x, n).dist[i][j] == (if i == x && j <= n && g.At(i, j) == p then 0 else s.dist[i][j])
    decreases n
  {
    var r := SeedColumn(g, p, s, x, n);
    if n == 0 {
      assert s.queue[..|s.queue|] == s.queue;
    } else {
      var m := SeedColumn(g, p, s, x, n - 1);
      SeedColumnDist(g, p, s, x, n - 1);
      if g.At(x, n) == p {
        assert r == Enqueue(m, (x, n), 0);
        assert r.queue[..|s.queue|] == m.queue[..|s.queue|];
      } else {
        assert r == m;
      }
    }
  }

  /** Seeding a column of unreached squares keeps the search consistent. */
  lemma {:induction false} SeedColumnConsistent(g: Grid, p: int, s: Sweep, x: int, n: int)
    requires g.WellFormed() && Consistent(g, s) && 1 <= x <= g.width && 0 <= n <= g.height
    requires forall y :: 1 <= y <= n ==> s.dist[x][y] == Unreached
    ensures Consistent(g, SeedColumn(g, p, s, x, n))
    decreases n
  {
    if n > 0 {
      var m := SeedColumn(g, p, s, x, n - 1);
      SeedColumnConsistent(g, p, s, x, n - 1);
      SeedColumnDist(g, p, s, x, n - 1);
      if g.At(x, n) == p {
        assert m.dist[x][n] == Unreached;
        EnqueueConsistent(g, m, (x, n), 0);
      }
    }
  }

  /** One turn of the `j` loop of column x: square (x, n + 1) is queued when
      it holds p, and then there is room for it in the queue. */
  lemma SeedColumnStep(g: Grid, p: int, x: int, n: int)
    requires g.WellFormed() && 1 <= x <= g.width && 0 <= n < g.height
    ensures SeedColumn(g, p, SeedUpTo(g, p, x - 1), x, n).dist[x][n + 1] == Unreached
    ensures g.At(x, n + 1) == p ==> |SeedColumn(g, p, SeedUpTo(g, p, x - 1), x, n).queue| < g.width * g.height
    ensures SeedColumn(g, p, SeedUpTo(g, p, x - 1), x, n + 1) ==
            if g.At(x, n + 1) == p then Enqueue(SeedColumn(g, p, SeedUpTo(g, p, x - 1), x, n), (x, n + 1), 0)
            else SeedColumn(g, p, SeedUpTo(g, p, x - 1), x, n)
  {
    var s := SeedUpTo(g, p, x - 1);
    SeedUpToFacts(g, p, x - 1);
    SeedColumnConsistent(g, p, s, x, n);
    SeedColumnDist(g, p, s, x, n);
    var m := SeedColumn(g, p, s, x, n);
    SeedColumnNext(g, p, s, x, n + 1);
    ConsistentAccounted(g, m);
    if g.At(x, n + 1) == p {
      EnqueueAccounted(g, m, (x, n + 1), 0);
    }
  }

  /** Seeding squares 1 .. n of a column is seeding 1 .. n - 1 and then square n. */
  lemma SeedColumnNext(g: Grid, p: int, s: Sweep, x: int, n: int)
    requires g.WellFormed() && Shaped(g, s.dist) && 1 <= x <= g.width && 1 <= n <= g.height
    ensures SeedColumn(g, p, s, x, n) ==
            if g.At(x, n) == p then Enqueue(SeedColumn(g, p, s, x, n - 1), (x, n), 0)
            else SeedColumn(g, p, s, x, n - 1)
  {
  }

  /** The `i` loop of the seeding, over columns 1 .. n, from the reset array. */
  function SeedUpTo(g: Grid, p: int, n: int): (r: Sweep)
    requires g.WellFormed() && 0 <= n <= g.width
    ensures Shaped(g, r.dist)
  {
    if n == 0 then Sweep(Unset(g), [])
    else SeedColumn(g, p, SeedUpTo(g, p, n - 1), n, g.height)
  }

  /** After the seeding loops the search is consistent, and exactly the
      squares of columns 1 .. n holding p have a distance, 0. */
  lemma {:induction false} SeedUpToFacts(g: Grid, p: int, n: int)
    requires g.WellFormed() && 0 <= n <= g.width
    ensures Consistent(g, SeedUpTo(g, p, n))
    ensures forall i, j :: g.OnBoard(i, j) ==>
              SeedUpTo(g, p, n).dist[i][j] == (if i <= n && g.At(i, j) == p then 0 else Unreached)
    decreases n
  {
    if n == 0 {
      StartConsistent(g);
    } else {
      var s := SeedUpTo(g, p, n - 1);
      SeedUpToFacts(g, p, n - 1);
      SeedColumnConsistent(g, p, s, n, g.height);
      SeedColumnDist(g, p, s, n, g.height);
    }
  }

  /** bfs(dists, p): the distances the search leaves, and its queue. */
  function Bfs(g: Grid, p: int): Sweep
    requires g.WellFormed()
  {
    SeedUpToFacts(g, p, g.width);
    ConsistentAccounted(g, SeedUpTo(g, p, g.width));
    Drain(g, SeedUpTo(g, p, g.width), 0)
  }

  /** The search queues each square at most once, so the queue, two ints per
      square, never needs more than 2 * width * height entries of qArr; every
      distance is -1 or at least 0; and the squares of the searched piece
      keep distance 0. */
  lemma BfsFacts(g: Grid, p: int)
    requires g.WellFormed() && p != Empty
    ensures Distinct(Bfs(g, p).queue) && |Bfs(g, p).queue| <= g.width * g.height
    ensures forall x, y :: g.OnBoard(x, y) ==> Bfs(g, p).dist[x][y] == Unreached || Bfs(g, p).dist[x][y] >= 0
    ensures forall x, y :: g.OnBoard(x, y) && g.At(x, y) == p ==> Bfs(g, p).dist[x][y] == 0
  {
    var s := SeedUpTo(g, p, g.width);
    SeedUpToFacts(g, p, g.width);
    var r := Drain(g, s, 0);
    DrainGrows(g, s, 0);
    forall x, y | g.OnBoard(x, y) && r.dist[x][y] != Unreached ensures r.dist[x][y] >= 0 {
      Queued(g, r, x, y);
    }
    forall x, y | g.OnBoard(x, y) && g.At(x, y) == p ensures r.dist[x][y] == 0 {
      assert s.dist[x][y] == 0;
    }
  }

  /** A square with a distance is a queued square, so its distance is not negative. */
  lemma Queued(g: Grid, s: Sweep, x: int, y: int)
    requires g.WellFormed() && Consistent(g, s) && g.OnBoard(x, y) && s.dist[x][y] != Unreached
    ensures s.dist[x][y] >= 0
  {
    assert (x, y) in s.queue;
    var k :| 0 <= k < |s.queue| && s.queue[k] == (x, y);
  }

  // ---------------------------------------------------------------------
  // Territory.

  /** The claim on one square: +1 when white reaches it strictly first, -1 when
      black does, 0 when neither or both at once or the square is not empty. */
  function Claim(g: Grid, dw: seq<seq<int>>, db: seq<seq<int>>, x: int, y: int): (c: int)
    requires g.WellFormed() && Shaped(g, dw) && Shaped(g, db) && g.OnBoard(x, y)
  {
    if g.At(x, y) == Empty then
      var a, b := dw[x][y], db[x][y];
      if a != Unreached && (b == Unreached || a < b) then 1
      else if b != Unreached && (a == Unreached || b < a) then -1
      else 0
    else 0
  }

  /** The `j` loop of the count: the claims on rows 1 .. n of column x. */
  function ColumnClaim(g: Grid, dw: seq<seq<int>>, db: seq<seq<int>>, x: int, n: int): int
    requires g.WellFormed() && Shaped(g, dw) && Shaped(g, db) && 1 <= x <= g.width && 0 <= n <= g.height
  {
    if n == 0 then 0 else ColumnClaim(g, dw, db, x, n - 1) + Claim(g, dw, db, x, n)
  }

  /** The `i` loop of the count: the claims on columns 1 .. n. */
  function ClaimUpTo(g: Grid, dw: seq<seq<int>>, db: seq<seq<int>>, n: int): int
    requires g.WellFormed() && Shaped(g, dw) && Shaped(g, db) && 0 <= n <= g.width
  {
    if n == 0 then 0 else ClaimUpTo(g, dw, db, n - 1) + ColumnClaim(g, dw, db, n, g.height)
  }

  /** calculateBFSTerritory(): empty squares white reaches first minus those black reaches first. */
  function Territory(g: Grid): int
    requires g.WellFormed()
  {
    ClaimUpTo(g, Bfs(g, White).dist, Bfs(g, Black).dist, g.width)
  }

  lemma {:induction false} ColumnClaimBound(g: Grid, dw: seq<seq<int>>, db: seq<seq<int>>, x: int, n: int)
    requires g.WellFormed() && Shaped(g, dw) && Shaped(g, db) && 1 <= x <= g.width && 0 <= n <= g.height
    ensures -ColumnCount(g, Empty, x, n) <= ColumnClaim(g, dw, db, x, n) <= ColumnCount(g, Empty, x, n)
    decreases n
  {
    if n > 0 {
      ColumnClaimBound(g, dw, db, x, n - 1);
    }
  }

  lemma {:induction false} ClaimBound(g: Grid, dw: seq<seq<int>>, db: seq<seq<int>>, n: int)
    requires g.WellFormed() && Shaped(g, dw) && Shaped(g, db) && 0 <= n <= g.width
    ensures -CountUpTo(g, Empty, n) <= ClaimUpTo(g, dw, db, n) <= CountUpTo(g, Empty, n)
    decreases n
  {
    if n > 0 {
      ClaimBound(g, dw, db, n - 1);
      ColumnClaimBound(g, dw, db, n, g.height);
    }
  }

  /** The territory lies between minus and plus the number of empty squares. */
  lemma TerritoryBound(g: Grid)
    requires g.WellFormed()
    ensures -Count(g, Empty) <= Territory(g) <= Count(g, Empty)
  {
    ClaimBound(g, Bfs(g, White).dist, Bfs(g, Black).dist, g.width);
  }

  lemma {:induction false} ColumnClaimSwap(g: Grid, dw: seq<seq<int>>, db: seq<seq<int>>, x: int, n: int)
    requires g.WellFormed() && Shaped(g, dw) && Shaped(g, db) && 1 <= x <= g.width && 0 <= n <= g.height
    ensures ColumnClaim(g, db, dw, x, n) == -ColumnClaim(g, dw, db, x, n)
    decreases n
  {
    if n > 0 {
      ColumnClaimSwap(g, dw, db, x, n - 1);
    }
  }

  /** Exchanging the two distance arrays negates the count: the rule favours neither colour. */
  lemma {:induction false} ClaimSwap(g: Grid, dw: seq<seq<int>>, db: seq<seq<int>>, n: int)
    requires g.WellFormed() && Shaped(g, dw) && Shaped(g, db) && 0 <= n <= g.width
    ensures ClaimUpTo(g, db, dw, n) == -ClaimUpTo(g, dw, db, n)
    decreases n
  {
    if n > 0 {
      ClaimSwap(g, dw, db, n - 1);
      ColumnClaimSwap(g, dw, db, n, g.height);
    }
  }
}
