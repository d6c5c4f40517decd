/** What the distances of QueenBattleState.bfs mean. A square's distance is
    the number of queen moves over empty squares that the searched side needs
    to get there: it is 0 exactly on the side's own queens; one queen move from
    a square at distance d leads to a square at distance at most d + 1; every
    positive distance is one more than that of a square one queen move away;
    and -1 is left exactly where no chain of queen moves leads. */
module Reach {
  import opened Board
  import opened MoveGen
  import opened Distances

  /** The square k steps from c in direction dir is one queen move away from c:
      it and every square between are empty and on the board. */
  predicate InSight(g: Grid, c: Cell, dir: int, k: int)
    requires g.WellFormed() && 0 <= dir < 8
  {
    k >= 1 && OpenRun(g, c.0, c.1, dir, 1, k) && Open(g, Target(c.0, c.1, dir, k))
  }

  /** Every distance the sweep holds lies between 0 and v. */
  ghost predicate Bounded(g: Grid, s: Sweep, v: int)
    requires g.WellFormed() && Shaped(g, s.dist)
  {
    forall x, y :: g.OnBoard(x, y) && s.dist[x][y] != Unreached ==> 0 <= s.dist[x][y] <= v
  }

  /** An open run followed by an open square is a longer open run. */
  lemma OpenRunSnoc(g: Grid, x: int, y: int, dir: int, lo: int, hi: int)
    requires g.WellFormed() && 0 <= dir < 8 && lo <= hi
    requires OpenRun(g, x, y, dir, lo, hi) && Open(g, Target(x, y, dir, hi))
    ensures OpenRun(g, x, y, dir, lo, hi + 1)
  {
  }

  // ---------------------------------------------------------------------
  // One ray of one expansion.

  /** One square of a ray expansion from distance d keeps every distance at
      most d + 1 and leaves the square with a distance. */
  lemma RayStepBounded(g: Grid, s: Sweep, t: Cell, d: int)
    requires g.WellFormed() && Shaped(g, s.dist) && g.OnBoard(t.0, t.1) && d >= 0
    requires Bounded(g, s, d + 1)
    ensures RayStep(g, s, t, d).dist[t.0][t.1] != Unreached
    ensures Bounded(g, RayStep(g, s, t, d), d + 1)
  {
    var m := RayStep(g, s, t, d);
    forall x, y | g.OnBoard(x, y) && m.dist[x][y] != Unreached
      ensures 0 <= m.dist[x][y] <= d + 1
    {
      if (x, y) != t {
        assert m.dist[x][y] == s.dist[x][y];
      }
    }
  }

  /** Expanding a ray from c at distance d keeps every distance at most d + 1. */
  lemma {:induction false} ExpandRayBounded(g: Grid, s: Sweep, c: Cell, dir: int, k: int, d: int)
    requires g.WellFormed() && Shaped(g, s.dist) && g.OnBoard(c.0, c.1) && 0 <= dir < 8 && k >= 1 && d >= 0
    requires Bounded(g, s, d + 1)
    ensures Bounded(g, ExpandRay(g, s, c, dir, k, d), d + 1)
    decreases 11 - k
  {
    var t := Target(c.0, c.1, dir, k);
    if Open(g, t) {
      ExpandRayUnfold(g, s, c, dir, k, d);
      RayStepBounded(g, s, t, d);
      ExpandRayBounded(g, RayStep(g, s, t, d), c, dir, k + 1, d);
    } else {
      ExpandRayBlocked(g, s, c, dir, k, d);
    }
  }

  /** A ray expansion leaves a distance that is set as it is. */
  lemma {:induction false} ExpandRayKeeps(g: Grid, s: Sweep, c: Cell, dir: int, k: int, d: int, x: int, y: int)
    requires g.WellFormed() && Shaped(g, s.dist) && g.OnBoard(c.0, c.1) && 0 <= dir < 8 && k >= 1 && g.OnBoard(x, y)
    requires s.dist[x][y] != Unreached
    ensures ExpandRay(g, s, c, dir, k, d).dist[x][y] == s.dist[x][y]
    decreases 11 - k
  {
    var t := Target(c.0, c.1, dir, k);
    if Open(g, t) {
      ExpandRayUnfold(g, s, c, dir, k, d);
      ExpandRayKeeps(g, RayStep(g, s, t, d), c, dir, k + 1, d, x, y);
    } else {
      ExpandRayBlocked(g, s, c, dir, k, d);
    }
  }

  /** Expanding a ray leaves every square it walks over with a distance. */
  lemma {:induction false} ExpandRaySees(g: Grid, s: Sweep, c: Cell, dir: int, k: int, d: int, j: int)
    requires g.WellFormed() && Shaped(g, s.dist) && g.OnBoard(c.0, c.1) && 0 <= dir < 8 && 1 <= k <= j && d >= 0
    requires OpenRun(g, c.0, c.1, dir, k, j) && Open(g, Target(c.0, c.1, dir, j))
    ensures ExpandRay(g, s, c, dir, k, d).dist[Target(c.0, c.1, dir, j).0][Target(c.0, c.1, dir, j).1] != Unreached
    decreases j - k
  {
    var t := Target(c.0, c.1, dir, k);
    assert Open(g, t);
    ExpandRayUnfold(g, s, c, dir, k, d);
    var m := RayStep(g, s, t, d);
    if k < j {
      ExpandRaySees(g, m, c, dir, k + 1, d, j);
    } else {
      assert m.dist[t.0][t.1] != Unreached;
      ExpandRayKeeps(g, m, c, dir, k + 1, d, t.0, t.1);
    }
  }

  /** One square t of a ray expansion from distance d gives t the distance
      d + 1 when it has none, and changes nothing else. */
  lemma RayStepAt(g: Grid, s: Sweep, t: Cell, d: int, x: int, y: int)
    requires g.WellFormed() && Shaped(g, s.dist) && g.OnBoard(t.0, t.1) && g.OnBoard(x, y)
    ensures RayStep(g, s, t, d).dist[x][y] ==
            if (x, y) == t && s.dist[x][y] == Unreached then d + 1 else s.dist[x][y]
  {
  }

  /** The first square (x, y) of a ray expansion from distance d, when open
      and without a distance, gets d + 1. */
  lemma ExpandRayHere(g: Grid, s: Sweep, c: Cell, dir: int, k: int, d: int, x: int, y: int)
    requires g.WellFormed() && Shaped(g, s.dist) && g.OnBoard(c.0, c.1) && 0 <= dir < 8 && k >= 1 && d >= 0
    requires (x, y) == Target(c.0, c.1, dir, k) && Open(g, (x, y)) && s.dist[x][y] == Unreached
    ensures ExpandRay(g, s, c, dir, k, d).dist[x][y] == d + 1
  {
    ExpandRayUnfold(g, s, c, dir, k, d);
    var m := RayStep(g, s, (x, y), d);
    RayStepAt(g, s, (x, y), d, x, y);
    ExpandRayKeeps(g, m, c, dir, k + 1, d, x, y);
  }

  /** A square a ray expansion from distance d gives a distance gets d + 1. */
  lemma {:induction false} ExpandRayValue(g: Grid, s: Sweep, c: Cell, dir: int, k: int, d: int, x: int, y: int)
    requires g.WellFormed() && Shaped(g, s.dist) && g.OnBoard(c.0, c.1) && 0 <= dir < 8 && k >= 1 && d >= 0
    requires g.OnBoard(x, y)
    requires s.dist[x][y] == Unreached && ExpandRay(g, s, c, dir, k, d).dist[x][y] != Unreached
    ensures ExpandRay(g, s, c, dir, k, d).dist[x][y] == d + 1
    decreases 11 - k
  {
    var t := Target(c.0, c.1, dir, k);
    if Open(g, t) {
      if (x, y) == t {
        ExpandRayHere(g, s, c, dir, k, d, x, y);
      } else {
        ExpandRayUnfold(g, s, c, dir, k, d);
        RayStepAt(g, s, t, d, x, y);
        ExpandRayValue(g, RayStep(g, s, t, d), c, dir, k + 1, d, x, y);
      }
    } else {
      ExpandRayBlocked(g, s, c, dir, k, d);
    }
  }

  /** A square a ray expansion from c gives a distance lies one queen move from
      c along that ray, j steps away. */
  lemma {:induction false} ExpandRaySource(g: Grid, s: Sweep, c: Cell, dir: int, k: int, d: int, x: int, y: int)
    returns (j: int)
    requires g.WellFormed() && Shaped(g, s.dist) && g.OnBoard(c.0, c.1) && 0 <= dir < 8 && k >= 1
    requires OpenRun(g, c.0, c.1, dir, 1, k) && g.OnBoard(x, y)
    requires s.dist[x][y] == Unreached && ExpandRay(g, s, c, dir, k, d).dist[x][y] != Unreached
    ensures Target(c.0, c.1, dir, j) == (x, y) && InSight(g, c, dir, j)
    decreases 11 - k
  {
    var t := Target(c.0, c.1, dir, k);
    if Open(g, t) {
      ExpandRayUnfold(g, s, c, dir, k, d);
      var m := RayStep(g, s, t, d);
      RayStepAt(g, s, t, d, x, y);
      if (x, y) == t {
        j := k;
        assert InSight(g, c, dir, j);
      } else {
        OpenRunSnoc(g, c.0, c.1, dir, 1, k);
        j := ExpandRaySource(g, m, c, dir, k + 1, d, x, y);
      }
    } else {
      ExpandRayBlocked(g, s, c, dir, k, d);
    }
  }

  // ---------------------------------------------------------------------
  // The eight rays of one expansion.

  /** Expanding the rays of a square at distance d keeps every distance at most d + 1. */
  lemma {:induction false} ExpandDirsBounded(g: Grid, s: Sweep, c: Cell, d: int, n: int)
    requires g.WellFormed() && Shaped(g, s.dist) && g.OnBoard(c.0, c.1) && d >= 0 && 0 <= n <= 8
    requires Bounded(g, s, d + 1)
    ensures Bounded(g, ExpandDirs(g, s, c, d, n), d + 1)
    decreases n
  {
    if n > 0 {
      ExpandDirsStep(g, s, c, d, n);
      ExpandDirsBounded(g, s, c, d, n - 1);
      ExpandRayBounded(g, ExpandDirs(g, s, c, d, n - 1), c, n - 1, 1, d);
    }
  }

  /** Expanding the rays of a square leaves a distance that is set as it is. */
  lemma {:induction false} ExpandDirsStays(g: Grid, s: Sweep, c: Cell, d: int, n: int, x: int, y: int)
    requires g.WellFormed() && Shaped(g, s.dist) && g.OnBoard(c.0, c.1) && 0 <= n <= 8 && g.OnBoard(x, y)
    requires s.dist[x][y] != Unreached
    ensures ExpandDirs(g, s, c, d, n).dist[x][y] == s.dist[x][y]
    decreases n
  {
    if n > 0 {
      ExpandDirsStep(g, s, c, d, n);
      ExpandDirsStays(g, s, c, d, n - 1, x, y);
      ExpandRayKeeps(g, ExpandDirs(g, s, c, d, n - 1), c, n - 1, 1, d, x, y);
    }
  }

  /** After the rays of directions 0 .. n - 1 of c are expanded, every square
      one queen move from c in those directions has a distance. */
  lemma {:induction false} ExpandDirsSees(g: Grid, s: Sweep, c: Cell, d: int, n: int, dir: int, k: int)
    requires g.WellFormed() && Shaped(g, s.dist) && g.OnBoard(c.0, c.1) && d >= 0 && 0 <= dir < n <= 8
    requires InSight(g, c, dir, k)
    ensures ExpandDirs(g, s, c, d, n).dist[Target(c.0, c.1, dir, k).0][Target(c.0, c.1, dir, k).1] != Unreached
    decreases n
  {
    var m := ExpandDirs(g, s, c, d, n - 1);
    var t := Target(c.0, c.1, dir, k);
    ExpandDirsStep(g, s, c, d, n);
    if dir == n - 1 {
      ExpandRaySees(g, m, c, dir, 1, d, k);
    } else {
      ExpandDirsSees(g, s, c, d, n - 1, dir, k);
      ExpandRayKeeps(g, m, c, n - 1, 1, d, t.0, t.1);
    }
  }

  /** Expanding the rays of a square at distance d gives every square it
      reaches the distance d + 1. */
  lemma {:induction false} ExpandDirsValue(g: Grid, s: Sweep, c: Cell, d: int, n: int, x: int, y: int)
    requires g.WellFormed() && Shaped(g, s.dist) && g.OnBoard(c.0, c.1) && d >= 0 && 0 <= n <= 8 && g.OnBoard(x, y)
    requires s.dist[x][y] == Unreached && ExpandDirs(g, s, c, d, n).dist[x][y] != Unreached
    ensures ExpandDirs(g, s, c, d, n).dist[x][y] == d + 1
    decreases n
  {
    var m := ExpandDirs(g, s, c, d, n - 1);
    ExpandDirsStep(g, s, c, d, n);
    if m.dist[x][y] != Unreached {
      ExpandDirsValue(g, s, c, d, n - 1, x, y);
      ExpandRayKeeps(g, m, c, n - 1, 1, d, x, y);
    } else {
      ExpandRayValue(g, m, c, n - 1, 1, d, x, y);
    }
  }

  /** A square the expansion of c gives a distance is one queen move from c,
      j steps in direction dir. */
  lemma {:induction false} ExpandDirsSource(g: Grid, s: Sweep, c: Cell, d: int, n: int, x: int, y: int)
    returns (dir: int, j: int)
    requires g.WellFormed() && Shaped(g, s.dist) && g.OnBoard(c.0, c.1) && 0 <= n <= 8 && g.OnBoard(x, y)
    requires s.dist[x][y] == Unreached && ExpandDirs(g, s, c, d, n).dist[x][y] != Unreached
    ensures 0 <= dir < 8 && Target(c.0, c.1, dir, j) == (x, y) && InSight(g, c, dir, j)
    decreases n
  {
    var m := ExpandDirs(g, s, c, d, n - 1);
    ExpandDirsStep(g, s, c, d, n);
    if m.dist[x][y] != Unreached {
      dir, j := ExpandDirsSource(g, s, c, d, n - 1, x, y);
    } else {
      dir := n - 1;
      assert OpenRun(g, c.0, c.1, dir, 1, 1);
      j := ExpandRaySource(g, m, c, dir, 1, d, x, y);
    }
  }

  // ---------------------------------------------------------------------
  // The queue loop.

  /** The distance of the a-th queued square. */
  ghost function QDist(g: Grid, s: Sweep, a: int): int
    requires g.WellFormed() && Consistent(g, s) && 0 <= a < |s.queue|
  {
    s.dist[s.queue[a].0][s.queue[a].1]
  }

  /** The sweep after the queue loop has expanded the square at head. */
  ghost function Next(g: Grid, s: Sweep, head: int): Sweep
    requires g.WellFormed() && Consistent(g, s) && 0 <= head < |s.queue|
  {
    ExpandDirs(g, s, s.queue[head], QDist(g, s, head), 8)
  }

  /** From head on, the queue holds its squares in order of distance, and no
      square has a distance beyond one more than that of the square at head. */
  ghost predicate Layered(g: Grid, s: Sweep, head: int)
    requires g.WellFormed() && Consistent(g, s) && 0 <= head <= |s.queue|
  {
    && (forall a, b :: head <= a <= b < |s.queue| ==> QDist(g, s, a) <= QDist(g, s, b))
    && (head < |s.queue| ==> Bounded(g, s, QDist(g, s, head) + 1))
  }

  /** Every square one queen move from a square already expanded has a
      distance at most one more than that square's. */
  ghost predicate Closed(g: Grid, s: Sweep, head: int)
    requires g.WellFormed() && Consistent(g, s) && 0 <= head <= |s.queue|
  {
    forall a, dir, k :: 0 <= a < head && 0 <= dir < 8 && InSight(g, s.queue[a], dir, k) ==>
      0 <= s.dist[Target(s.queue[a].0, s.queue[a].1, dir, k).0][Target(s.queue[a].0, s.queue[a].1, dir, k).1]
        <= QDist(g, s, a) + 1
  }

  /** The distance of (x, y) is accounted for: 0 on a square holding p, and
      otherwise one more than that of a square one queen move away. */
  ghost predicate Earned(g: Grid, p: int, s: Sweep, x: int, y: int)
    requires g.WellFormed() && Shaped(g, s.dist) && g.OnBoard(x, y)
  {
    && s.dist[x][y] >= 0
    && (s.dist[x][y] == 0 ==> g.At(x, y) == p)
    && (s.dist[x][y] > 0 ==>
          exists i, j, dir, k :: g.OnBoard(i, j) && 0 <= dir < 8 && InSight(g, (i, j), dir, k) &&
            Target(i, j, dir, k) == (x, y) && s.dist[i][j] == s.dist[x][y] - 1)
  }

  /** Every distance the sweep holds is accounted for. */
  ghost predicate Explained(g: Grid, p: int, s: Sweep)
    requires g.WellFormed() && Shaped(g, s.dist)
  {
    forall x, y :: g.OnBoard(x, y) && s.dist[x][y] != Unreached ==> Earned(g, p, s, x, y)
  }

  /** One turn of the queue loop keeps the search consistent and only
      appends to the queue. */
  lemma NextFacts(g: Grid, s: Sweep, head: int)
    requires g.WellFormed() && Consistent(g, s) && 0 <= head < |s.queue|
    ensures Consistent(g, Next(g, s, head)) && head < |Next(g, s, head).queue|
    ensures |s.queue| <= |Next(g, s, head).queue| && Next(g, s, head).queue[..|s.queue|] == s.queue
  {
    var c := s.queue[head];
    ExpandDirsConsistent(g, s, c, QDist(g, s, head), 8);
    ExpandDirsGrows(g, s, c, QDist(g, s, head), 8);
  }

  /** After one turn, the squares queued before keep their distances and the
      squares the turn queued have one more than the expanded square's. */
  lemma NextAt(g: Grid, s: Sweep, head: int, b: int)
    requires g.WellFormed() && Consistent(g, s) && 0 <= head < |s.queue|
    requires Consistent(g, Next(g, s, head)) && 0 <= b < |Next(g, s, head).queue|
    ensures QDist(g, Next(g, s, head), b) == if b < |s.queue| then QDist(g, s, b) else QDist(g, s, head) + 1
  {
    NextFacts(g, s, head);
    var c := s.queue[head];
    var d := QDist(g, s, head);
    var m := Next(g, s, head);
    var t := m.queue[b];
    if b < |s.queue| {
      assert t == s.queue[b];
      ExpandDirsStays(g, s, c, d, 8, t.0, t.1);
    } else {
      forall a | 0 <= a < |s.queue| ensures s.queue[a] != t {
        assert s.queue[a] == m.queue[a];
      }
      assert s.dist[t.0][t.1] == Unreached;
      ExpandDirsValue(g, s, c, d, 8, t.0, t.1);
    }
  }

  /** The squares a turn queues come after, and are no nearer than, those
      queued before them. */
  lemma NextOrdered(g: Grid, s: Sweep, head: int, a: int, b: int)
    requires g.WellFormed() && Consistent(g, s) && 0 <= head < |s.queue| && Layered(g, s, head)
    requires Consistent(g, Next(g, s, head)) && head + 1 <= a <= b < |Next(g, s, head).queue|
    ensures QDist(g, Next(g, s, head), a) <= QDist(g, Next(g, s, head), b)
  {
    NextAt(g, s, head, a);
    NextAt(g, s, head, b);
    if a < |s.queue| {
      assert QDist(g, s, head) <= QDist(g, s, a) <= QDist(g, s, head) + 1;
    }
  }

  /** After one turn no distance exceeds one more than that of the next head. */
  lemma NextBounded(g: Grid, s: Sweep, head: int)
    requires g.WellFormed() && Consistent(g, s) && 0 <= head < |s.queue| && Layered(g, s, head)
    requires Consistent(g, Next(g, s, head)) && head + 1 < |Next(g, s, head).queue|
    ensures Bounded(g, Next(g, s, head), QDist(g, Next(g, s, head), head + 1) + 1)
  {
    var d := QDist(g, s, head);
    var m := Next(g, s, head);
    ExpandDirsBounded(g, s, s.queue[head], d, 8);
    NextAt(g, s, head, head + 1);
    assert d <= QDist(g, m, head + 1);
  }

  /** One turn keeps the queue ordered by distance from the next head on. */
  lemma NextLayered(g: Grid, s: Sweep, head: int)
    requires g.WellFormed() && Consistent(g, s) && 0 <= head < |s.queue| && Layered(g, s, head)
    requires Consistent(g, Next(g, s, head))
    ensures head + 1 <= |Next(g, s, head).queue| && Layered(g, Next(g, s, head), head + 1)
  {
    NextFacts(g, s, head);
    var m := Next(g, s, head);
    forall a, b | head + 1 <= a <= b < |m.queue| ensures QDist(g, m, a) <= QDist(g, m, b) {
      NextOrdered(g, s, head, a, b);
    }
    if head + 1 < |m.queue| {
      NextBounded(g, s, head);
    }
  }

  /** After one turn, the square just expanded and every square expanded
      before it have all squares one queen move away within one more than
      their own distance. */
  lemma NextClosedAt(g: Grid, s: Sweep, head: int, a: int, dir: int, k: int)
    requires g.WellFormed() && Consistent(g, s) && 0 <= head < |s.queue| && Layered(g, s, head) && Closed(g, s, head)
    requires Consistent(g, Next(g, s, head)) && 0 <= a <= head && 0 <= dir < 8 && InSight(g, s.queue[a], dir, k)
    ensures 0 <= Next(g, s, head).dist[Target(s.queue[a].0, s.queue[a].1, dir, k).0][Target(s.queue[a].0, s.queue[a].1, dir, k).1]
              <= QDist(g, s, a) + 1
  {
    var c := s.queue[head];
    var d := QDist(g, s, head);
    var t := Target(s.queue[a].0, s.queue[a].1, dir, k);
    if a < head {
      assert 0 <= s.dist[t.0][t.1] <= QDist(g, s, a) + 1;
      ExpandDirsStays(g, s, c, d, 8, t.0, t.1);
    } else {
      ExpandDirsSees(g, s, c, d, 8, dir, k);
      ExpandDirsBounded(g, s, c, d, 8);
    }
  }

  /** One turn keeps every expanded square closed. */
  lemma NextClosed(g: Grid, s: Sweep, head: int)
    requires g.WellFormed() && Consistent(g, s) && 0 <= head < |s.queue| && Layered(g, s, head) && Closed(g, s, head)
    requires Consistent(g, Next(g, s, head))
    ensures head + 1 <= |Next(g, s, head).queue| && Closed(g, Next(g, s, head), head + 1)
  {
    NextFacts(g, s, head);
    var m := Next(g, s, head);
    forall a, dir, k | 0 <= a < head + 1 && 0 <= dir < 8 && InSight(g, m.queue[a], dir, k)
      ensures 0 <= m.dist[Target(m.queue[a].0, m.queue[a].1, dir, k).0][Target(m.queue[a].0, m.queue[a].1, dir, k).1]
                <= QDist(g, m, a) + 1
    {
      assert m.queue[a] == s.queue[a];
      NextAt(g, s, head, a);
      NextClosedAt(g, s, head, a, dir, k);
    }
  }

  /** After one turn the distance of (x, y), if it has one, is accounted for. */
  lemma NextEarned(g: Grid, p: int, s: Sweep, head: int, x: int, y: int)
    requires g.WellFormed() && Consistent(g, s) && 0 <= head < |s.queue| && Explained(g, p, s)
    requires g.OnBoard(x, y) && Next(g, s, head).dist[x][y] != Unreached
    ensures Earned(g, p, Next(g, s, head), x, y)
  {
    var c := s.queue[head];
    var d := QDist(g, s, head);
    var m := Next(g, s, head);
    if s.dist[x][y] != Unreached {
      ExpandDirsStays(g, s, c, d, 8, x, y);
      assert Earned(g, p, s, x, y);
      if s.dist[x][y] > 0 {
        var i, j, dir, k :| g.OnBoard(i, j) && 0 <= dir < 8 && InSight(g, (i, j), dir, k) &&
          Target(i, j, dir, k) == (x, y) && s.dist[i][j] == s.dist[x][y] - 1;
        ExpandDirsStays(g, s, c, d, 8, i, j);
        assert m.dist[i][j] == m.dist[x][y] - 1;
      }
    } else {
      ExpandDirsValue(g, s, c, d, 8, x, y);
      var dir, j := ExpandDirsSource(g, s, c, d, 8, x, y);
      ExpandDirsStays(g, s, c, d, 8, c.0, c.1);
      assert m.dist[c.0][c.1] == m.dist[x][y] - 1;
    }
  }

  /** One turn keeps every distance accounted for. */
  lemma NextExplained(g: Grid, p: int, s: Sweep, head: int)
    requires g.WellFormed() && Consistent(g, s) && 0 <= head < |s.queue| && Explained(g, p, s)
    ensures Explained(g, p, Next(g, s, head))
  {
    var m := Next(g, s, head);
    forall x, y | g.OnBoard(x, y) && m.dist[x][y] != Unreached ensures Earned(g, p, m, x, y) {
      NextEarned(g, p, s, head, x, y);
    }
  }

  /** What the queue loop keeps true about the distances when it is about to
      expand the square at head. */
  ghost predicate Meaning(g: Grid, p: int, s: Sweep, head: int)
    requires g.WellFormed()
  {
    && Consistent(g, s) && 0 <= head <= |s.queue|
    && Layered(g, s, head) && Closed(g, s, head) && Explained(g, p, s)
  }

  /** One turn of the queue loop keeps the meaning of the distances. */
  lemma NextMeaning(g: Grid, p: int, s: Sweep, head: int)
    requires g.WellFormed() && Meaning(g, p, s, head) && head < |s.queue|
    ensures Meaning(g, p, Next(g, s, head), head + 1)
  {
    NextFacts(g, s, head);
    NextLayered(g, s, head);
    NextClosed(g, s, head);
    NextExplained(g, p, s, head);
  }

  /** inv holds after a turn of the queue loop whenever it held before. */
  ghost predicate Preserves(g: Grid, inv: (Sweep, int) -> bool, s: Sweep, head: int)
  {
    g.WellFormed() && Consistent(g, s) && 0 <= head < |s.queue| && inv(s, head) ==>
      Consistent(g, Next(g, s, head)) && inv(Next(g, s, head), head + 1)
  }

  /** What every turn of the queue loop preserves holds when the loop ends. */
  lemma {:induction false} DrainKeeps(g: Grid, inv: (Sweep, int) -> bool, s: Sweep, head: int)
    requires forall s', h :: Preserves(g, inv, s', h)
    requires g.WellFormed() && Consistent(g, s) && 0 <= head <= |s.queue| && inv(s, head)
    ensures inv(Drain(g, s, head), |Drain(g, s, head).queue|)
    decreases g.width * g.height - head
  {
    if head == |s.queue| {
      DrainDone(g, s, head);
    } else {
      var c := s.queue[head];
      var m := ExpandDirs(g, s, c, s.dist[c.0][c.1], 8);
      DrainStep(g, s, head);
      NextFacts(g, s, head);
      assert m == Next(g, s, head);
      AccountedBound(g, s);
      assert Preserves(g, inv, s, head);
      DrainKeeps(g, inv, m, head + 1);
    }
  }

  /** Meaning, as an invariant of the queue loop. */
  ghost function Invariant(g: Grid, p: int): (Sweep, int) -> bool
  {
    (s: Sweep, head: int) => g.WellFormed() && Meaning(g, p, s, head)
  }

  /** Every turn of the queue loop preserves the meaning of the distances. */
  lemma MeaningPreserved(g: Grid, p: int)
    ensures forall s, head :: Preserves(g, Invariant(g, p), s, head)
  {
    forall s, head ensures Preserves(g, Invariant(g, p), s, head) {
      if g.WellFormed() && Consistent(g, s) && 0 <= head < |s.queue| && Invariant(g, p)(s, head) {
        NextMeaning(g, p, s, head);
      }
    }
  }

  /** The search as a whole: once the queue loop ends, every queued square is
      closed and every distance is accounted for. */
  lemma BfsMeaning(g: Grid, p: int)
    requires g.WellFormed()
    ensures Meaning(g, p, Bfs(g, p), |Bfs(g, p).queue|)
  {
    var s := SeedUpTo(g, p, g.width);
    SeedUpToFacts(g, p, g.width);
    SeedMeaning(g, p);
    MeaningPreserved(g, p);
    DrainKeeps(g, Invariant(g, p), s, 0);
  }

  /** The seeded sweep: the queue holds exactly the squares of p, all at
      distance 0, and none of them is expanded yet. */
  lemma SeedMeaning(g: Grid, p: int)
    requires g.WellFormed()
    ensures Meaning(g, p, SeedUpTo(g, p, g.width), 0)
  {
    var s := SeedUpTo(g, p, g.width);
    SeedUpToFacts(g, p, g.width);
    forall a | 0 <= a < |s.queue| ensures QDist(g, s, a) == 0 {
      assert s.dist[s.queue[a].0][s.queue[a].1] >= 0;
    }
  }

  // ---------------------------------------------------------------------
  // What the distances of bfs mean.

  /** A square holding p keeps the distance 0 it was seeded with. */
  lemma BfsSeeded(g: Grid, p: int, x: int, y: int)
    requires g.WellFormed() && g.OnBoard(x, y) && g.At(x, y) == p
    ensures Bfs(g, p).dist[x][y] == 0
  {
    var s := SeedUpTo(g, p, g.width);
    SeedUpToFacts(g, p, g.width);
    DrainGrows(g, s, 0);
    assert s.dist[x][y] == 0;
  }

  /** A square one queen move from a square the search reached is reached
      too, at most one move further. */
  lemma BfsClosed(g: Grid, p: int, x: int, y: int, dir: int, k: int)
    requires g.WellFormed() && g.OnBoard(x, y) && Bfs(g, p).dist[x][y] != Unreached
    requires 0 <= dir < 8 && InSight(g, (x, y), dir, k)
    ensures 0 <= Bfs(g, p).dist[Target(x, y, dir, k).0][Target(x, y, dir, k).1] <= Bfs(g, p).dist[x][y] + 1
  {
    var r := Bfs(g, p);
    BfsMeaning(g, p);
    assert (x, y) in r.queue;
    var a :| 0 <= a < |r.queue| && r.queue[a] == (x, y);
    assert InSight(g, r.queue[a], dir, k);
  }

  /** Every distance the search leaves is explained: 0 only on a square
      holding p, and a positive distance is one more than that of a square one
      queen move away. */
  lemma BfsExplained(g: Grid, p: int, x: int, y: int)
    requires g.WellFormed() && g.OnBoard(x, y) && Bfs(g, p).dist[x][y] != Unreached
    ensures Bfs(g, p).dist[x][y] >= 0
    ensures Bfs(g, p).dist[x][y] == 0 ==> g.At(x, y) == p
    ensures Bfs(g, p).dist[x][y] > 0 ==>
              exists i, j, dir, k :: g.OnBoard(i, j) && 0 <= dir < 8 && InSight(g, (i, j), dir, k) &&
                Target(i, j, dir, k) == (x, y) && Bfs(g, p).dist[i][j] == Bfs(g, p).dist[x][y] - 1
  {
    BfsMeaning(g, p);
    assert Earned(g, p, Bfs(g, p), x, y);
  }

  /** cs is a chain of queen moves: cs[i + 1] is ks[i] steps from cs[i] in
      direction dirs[i], over empty squares only. */
  predicate Chain(g: Grid, cs: seq<Cell>, dirs: seq<int>, ks: seq<int>)
    requires g.WellFormed()
  {
    && |cs| >= 1 && |dirs| == |cs| - 1 && |ks| == |cs| - 1
    && forall i :: 0 <= i < |dirs| ==>
         0 <= dirs[i] < 8 && InSight(g, cs[i], dirs[i], ks[i]) && Target(cs[i].0, cs[i].1, dirs[i], ks[i]) == cs[i + 1]
  }

  /** The end of a chain of queen moves that starts on a square holding p has
      a distance, at most the number of moves. */
  lemma {:induction false} BfsChain(g: Grid, p: int, cs: seq<Cell>, dirs: seq<int>, ks: seq<int>)
    requires g.WellFormed() && Chain(g, cs, dirs, ks)
    requires g.OnBoard(cs[0].0, cs[0].1) && g.At(cs[0].0, cs[0].1) == p
    ensures g.OnBoard(cs[|cs| - 1].0, cs[|cs| - 1].1)
    ensures 0 <= Bfs(g, p).dist[cs[|cs| - 1].0][cs[|cs| - 1].1] <= |cs| - 1
    decreases |cs|
  {
    if |cs| == 1 {
      BfsSeeded(g, p, cs[0].0, cs[0].1);
    } else {
      var n := |dirs| - 1;
      assert Chain(g, cs[..n + 1], dirs[..n], ks[..n]) by {
        forall i | 0 <= i < n
          ensures 0 <= dirs[i] < 8 && InSight(g, cs[i], dirs[i], ks[i]) && Target(cs[i].0, cs[i].1, dirs[i], ks[i]) == cs[i + 1]
        {
        }
      }
      BfsChain(g, p, cs[..n + 1], dirs[..n], ks[..n]);
      assert 0 <= dirs[n] < 8 && InSight(g, cs[n], dirs[n], ks[n]) && Target(cs[n].0, cs[n].1, dirs[n], ks[n]) == cs[n + 1];
      BfsClosed(g, p, cs[n].0, cs[n].1, dirs[n], ks[n]);
    }
  }

  /** A square with a distance d is the end of a chain of d queen moves that
      starts on a square holding p; with BfsChain, d is the fewest moves that
      reach it, and -1 is left exactly where no chain leads. */
  lemma {:induction false} BfsPath(g: Grid, p: int, x: int, y: int) returns (cs: seq<Cell>, dirs: seq<int>, ks: seq<int>)
    requires g.WellFormed() && g.OnBoard(x, y) && Bfs(g, p).dist[x][y] != Unreached
    ensures Chain(g, cs, dirs, ks) && |cs| == Bfs(g, p).dist[x][y] + 1 && cs[|cs| - 1] == (x, y)
    ensures g.OnBoard(cs[0].0, cs[0].1) && g.At(cs[0].0, cs[0].1) == p
    decreases Bfs(g, p).dist[x][y]
  {
    BfsExplained(g, p, x, y);
    if Bfs(g, p).dist[x][y] == 0 {
      cs, dirs, ks := [(x, y)], [], [];
    } else {
      var i, j, dir, k :| g.OnBoard(i, j) && 0 <= dir < 8 && InSight(g, (i, j), dir, k) &&
        Target(i, j, dir, k) == (x, y) && Bfs(g, p).dist[i][j] == Bfs(g, p).dist[x][y] - 1;
      var cs', dirs', ks' := BfsPath(g, p, i, j);
      cs, dirs, ks := cs' + [(x, y)], dirs' + [dir], ks' + [k];
      forall n | 0 <= n < |dirs|
        ensures 0 <= dirs[n] < 8 && InSight(g, cs[n], dirs[n], ks[n]) && Target(cs[n].0, cs[n].1, dirs[n], ks[n]) == cs[n + 1]
      {
        if n < |dirs'| {
          assert cs[n] == cs'[n] && cs[n + 1] == cs'[n + 1];
        }
      }
    }
  }
}
