/** The move ordering at the root of the search: the legal moves sorted by a
    score, quickEvaluateMove in the source, best first. The source sorts its
    move list with a comparator on the two scores; Java's list sort is stable,
    so moves of equal score keep the order getLegalMoves produced. Ordered is
    that sort written as an insertion sort, proved to give a list sorted by
    descending score that is a permutation of its input and keeps every
    score's moves in their original order. */
module MoveOrder {
  import opened Board

  /** Scores never increase along s. */
  predicate Descending(score: Move -> int, s: seq<Move>) {
    forall i, j :: 0 <= i < j < |s| ==> score(s[i]) >= score(s[j])
  }

  /** Insert m into a descending list in front of the first move scoring no
      more than m, so that m stays ahead of the moves of equal score. */
  function Insert(score: Move -> int, m: Move, s: seq<Move>): seq<Move> {
    if s == [] then [m]
    else if score(s[0]) > score(m) then [s[0]] + Insert(score, m, s[1..])
    else [m] + s
  }

  /** moves.sort(by quickEvaluateMove, descending). */
  function Ordered(score: Move -> int, s: seq<Move>): seq<Move> {
    if s == [] then [] else Insert(score, s[0], Ordered(score, s[1..]))
  }

  /** The moves of s scoring exactly v, in their order in s. */
  function WithScore(score: Move -> int, s: seq<Move>, v: int): seq<Move> {
    if s == [] then []
    else (if score(s[0]) == v then [s[0]] else []) + WithScore(score, s[1..], v)
  }

  lemma {:induction false} WithScoreAppend(score: Move -> int, a: seq<Move>, b: seq<Move>, v: int)
    ensures WithScore(score, a + b, v) == WithScore(score, a, v) + WithScore(score, b, v)
    decreases |a|
  {
    if a == [] {
      assert a + b == b;
    } else {
      assert (a + b)[1..] == a[1..] + b;
      WithScoreAppend(score, a[1..], b, v);
      AppendAssoc((if score(a[0]) == v then [a[0]] else []), WithScore(score, a[1..], v), WithScore(score, b, v));
    }
  }

  lemma {:induction false} InsertPermutes(score: Move -> int, m: Move, s: seq<Move>)
    ensures multiset(Insert(score, m, s)) == multiset([m] + s)
    decreases |s|
  {
    if s != [] && score(s[0]) > score(m) {
      InsertPermutes(score, m, s[1..]);
      assert s == [s[0]] + s[1..];
    }
  }

  lemma {:induction false} InsertDescending(score: Move -> int, m: Move, s: seq<Move>)
    requires Descending(score, s)
    ensures Descending(score, Insert(score, m, s))
    ensures |Insert(score, m, s)| == |s| + 1
    ensures forall i :: 0 <= i < |Insert(score, m, s)| ==>
              Insert(score, m, s)[i] == m || Insert(score, m, s)[i] in s
    decreases |s|
  {
    if s != [] && score(s[0]) > score(m) {
      var rest := Insert(score, m, s[1..]);
      InsertDescending(score, m, s[1..]);
      forall i | 0 <= i < |rest|
        ensures score(s[0]) >= score(rest[i])
      {
        if rest[i] != m {
          var k :| 0 <= k < |s[1..]| && s[1..][k] == rest[i];
          assert s[k + 1] == rest[i];
        }
      }
    }
  }

  /** Moving a move of a higher score ahead of m changes no score's list. */
  lemma InsertKeepsScores(score: Move -> int, m: Move, s: seq<Move>)
    requires Descending(score, s)
    ensures forall v :: WithScore(score, Insert(score, m, s), v) == WithScore(score, [m] + s, v)
  {
    forall v {
      InsertKeepsScore(score, m, s, v);
    }
  }

  lemma {:induction false} InsertKeepsScore(score: Move -> int, m: Move, s: seq<Move>, v: int)
    requires Descending(score, s)
    ensures WithScore(score, Insert(score, m, s), v) == WithScore(score, [m] + s, v)
    decreases |s|
  {
    if s != [] && score(s[0]) > score(m) {
      var first := if score(s[0]) == v then [s[0]] else [];
      var mine := if score(m) == v then [m] else [];
      InsertKeepsScore(score, m, s[1..], v);
      WithScoreAppend(score, [s[0]], Insert(score, m, s[1..]), v);
      WithScoreAppend(score, [m], s[1..], v);
      WithScoreAppend(score, [m], s, v);
      WithScoreAppend(score, [s[0]], s[1..], v);
      assert s == [s[0]] + s[1..];
      assert first == [] || mine == [];
    }
  }

  /** The root ordering is a permutation of its input, sorted by descending
      score, and stable: the moves of any one score appear in their original
      order. */
  lemma {:induction false} OrderedSpec(score: Move -> int, s: seq<Move>)
    ensures multiset(Ordered(score, s)) == multiset(s)
    ensures Descending(score, Ordered(score, s))
    ensures forall v :: WithScore(score, Ordered(score, s), v) == WithScore(score, s, v)
    decreases |s|
  {
    if s != [] {
      var rest := Ordered(score, s[1..]);
      OrderedSpec(score, s[1..]);
      InsertPermutes(score, s[0], rest);
      InsertDescending(score, s[0], rest);
      InsertKeepsScores(score, s[0], rest);
      assert s == [s[0]] + s[1..];
      forall v
        ensures WithScore(score, Ordered(score, s), v) == WithScore(score, s, v)
      {
        WithScoreAppend(score, [s[0]], rest, v);
        WithScoreAppend(score, [s[0]], s[1..], v);
      }
    }
  }

  /** Sorting neither adds nor drops a move. */
  lemma OrderedMembers(score: Move -> int, s: seq<Move>)
    ensures |Ordered(score, s)| == |s|
    ensures forall m :: m in Ordered(score, s) <==> m in s
  {
    OrderedSpec(score, s);
    assert |multiset(Ordered(score, s))| == |multiset(s)|;
    forall m
      ensures m in Ordered(score, s) <==> m in s
    {
      assert m in Ordered(score, s) <==> m in multiset(Ordered(score, s));
      assert m in s <==> m in multiset(s);
    }
  }
}
