/** `find_top_k_similar_vectors`: a bounded priority queue over (score, index) pairs. */
module TopK {
  import opened Documents

  type Scored = (real, nat)

  /** `std::pair` compares the scores first and the indexes next. */
  predicate Before(a: Scored, b: Scored) {
    a.0 < b.0 || (a.0 == b.0 && a.1 < b.1)
  }

  ghost predicate Ascending(s: seq<Scored>) {
    forall i, j :: 0 <= i < j < |s| ==> Before(s[i], s[j])
  }

  /**
   * A priority queue shows only its size and its greatest element, so an ascending sequence stands for it:
   * `push` inserts, `top` is the last element, `pop` drops it.
   */
  function Insert(s: seq<Scored>, x: Scored): (r: seq<Scored>)
    ensures |r| == |s| + 1
  {
    if s == [] then [x]
    else if Before(s[|s| - 1], x) then s + [x]
    else Insert(s[..|s| - 1], x) + [s[|s| - 1]]
  }

  function Pairs(scores: seq<real>): (p: seq<Scored>)
    ensures |p| == |scores| && forall i :: 0 <= i < |p| ==> p[i] == (scores[i], i)
  {
    seq(|scores|, (i: nat) requires i < |scores| => (scores[i], i))
  }

  /** All pairs, in ascending order. */
  function Sorted(p: seq<Scored>): (r: seq<Scored>)
    ensures |r| == |p|
  {
    if p == [] then [] else Insert(Sorted(p[..|p| - 1]), p[|p| - 1])
  }

  /** A negative k is compared as an unsigned 64-bit number. */
  function Capacity(k: int): nat
    requires -0x8000_0000 <= k
  {
    if k >= 0 then k else k + 0x1_0000_0000_0000_0000
  }

  lemma {:induction false} InsertContents(s: seq<Scored>, x: Scored)
    ensures multiset(Insert(s, x)) == multiset(s) + multiset([x])
    decreases |s|
  {
    if s != [] && !Before(s[|s| - 1], x) {
      InsertContents(s[..|s| - 1], x);
      assert s == s[..|s| - 1] + [s[|s| - 1]];
    }
  }

  lemma {:induction false} InsertAscending(s: seq<Scored>, x: Scored)
    requires Ascending(s) && x !in s
    ensures Ascending(Insert(s, x))
    decreases |s|
  {
    if s != [] && !Before(s[|s| - 1], x) {
      var front, last := s[..|s| - 1], s[|s| - 1];
      assert last in s;
      InsertAscending(front, x);
      InsertContents(front, x);
      forall i | 0 <= i < |front| + 1 ensures Before(Insert(front, x)[i], last) {
        assert Insert(front, x)[i] in multiset(Insert(front, x));
        assert Insert(front, x)[i] == x || Insert(front, x)[i] in front;
      }
    }
  }

  lemma {:induction false} SortedContents(p: seq<Scored>)
    ensures multiset(Sorted(p)) == multiset(p)
    decreases |p|
  {
    if p != [] {
      var front, last := p[..|p| - 1], p[|p| - 1];
      SortedContents(front);
      InsertContents(Sorted(front), last);
      assert p == front + [last];
    }
  }

  lemma SortedMember(p: seq<Scored>, x: Scored)
    ensures x in Sorted(p) <==> x in p
  {
    SortedContents(p);
    assert x in Sorted(p) <==> x in multiset(Sorted(p));
  }

  /** Sorting orders the pairs; indexes make all of them different. */
  lemma {:induction false} SortedIsAscending(p: seq<Scored>)
    requires forall i :: 0 <= i < |p| ==> p[i].1 == i
    ensures Ascending(Sorted(p)) && multiset(Sorted(p)) == multiset(p)
    decreases |p|
  {
    SortedContents(p);
    if p != [] {
      var front, last := p[..|p| - 1], p[|p| - 1];
      SortedIsAscending(front);
      SortedMember(front, last);
      InsertAscending(Sorted(front), last);
    }
  }

  /** Cutting the queue back to its capacity after an insertion loses nothing that belongs below the cut. */
  lemma {:induction false} InsertIntoPrefix(s: seq<Scored>, x: Scored, c: nat)
    requires Ascending(s) && c <= |s|
    ensures Insert(s[..c], x)[..c] == Insert(s, x)[..c]
    decreases |s|
  {
    InsertContents(s, x);
    InsertContents(s[..c], x);
    if c == |s| {
      assert s[..c] == s;
    } else {
      var front, last := s[..|s| - 1], s[|s| - 1];
      InsertIntoPrefix(front, x, c);
      assert front[..c] == s[..c];
      if Before(last, x) {
        InsertAtEnd(front, x);
        if c > 0 { InsertAtEnd(s[..c], x); }
      }
    }
  }

  lemma InsertAtEnd(s: seq<Scored>, x: Scored)
    requires s != [] ==> Before(s[|s| - 1], x)
    ensures Insert(s, x) == s + [x]
  {
  }

  lemma OneMoreScore(scores: seq<real>, i: nat)
    requires i < |scores|
    ensures Ascending(Sorted(Pairs(scores)[..i]))
    ensures Sorted(Pairs(scores)[..i + 1]) == Insert(Sorted(Pairs(scores)[..i]), (scores[i], i))
  {
    SortedIsAscending(Pairs(scores)[..i]);
    assert Pairs(scores)[..i + 1][..i] == Pairs(scores)[..i];
  }

  method FindTopK(scores: seq<real>, k: int) returns (topK: seq<Scored>)
    requires -0x8000_0000 <= k
    ensures topK == Sorted(Pairs(scores))[..Min(Capacity(k), |scores|)]
  {
    var pq: seq<Scored> := [];
    var i := 0;
    while i < |scores|
      invariant 0 <= i <= |scores|
      invariant pq == Sorted(Pairs(scores)[..i])[..Min(Capacity(k), i)]
    {
      OneMoreScore(scores, i);
      pq := PushBounded(pq, (scores[i], i), k, Sorted(Pairs(scores)[..i]));
      i := i + 1;
    }
    assert Pairs(scores)[..i] == Pairs(scores);
    topK := DrainReversed(pq);
  }

  /** `push`, then `pop` if the queue has outgrown k. */
  method PushBounded(pq: seq<Scored>, x: Scored, k: int, ghost s: seq<Scored>) returns (pq': seq<Scored>)
    requires -0x8000_0000 <= k && Ascending(s) && pq == s[..Min(Capacity(k), |s|)]
    ensures pq' == Insert(s, x)[..Min(Capacity(k), |s| + 1)]
  {
    InsertContents(s, x);
    InsertContents(pq, x);
    if Capacity(k) <= |s| {
      InsertIntoPrefix(s, x, Capacity(k));
    } else {
      assert pq == s;
    }
    pq' := Insert(pq, x);
    if |pq'| > Capacity(k) {
      pq' := pq'[..|pq'| - 1];
    }
  }

  /** Empties the queue from the top, then reverses the result in place. */
  method DrainReversed(queue: seq<Scored>) returns (r: seq<Scored>)
    ensures r == queue
  {
    var pq := queue;
    var out := new Scored[|queue|](i => (0.0, 0));
    var n := 0;
    while pq != []
      invariant n + |pq| == |queue| && pq == queue[..|pq|]
      invariant forall j :: 0 <= j < n ==> out[j] == queue[|queue| - 1 - j]
    {
      out[n] := pq[|pq| - 1];
      pq := pq[..|pq| - 1];
      n := n + 1;
    }
    Reverse(out);
    r := out[..];
  }

  /** `std::reverse`. */
  method Reverse(a: array<Scored>)
    modifies a
    ensures forall j :: 0 <= j < a.Length ==> a[j] == old(a[a.Length - 1 - j])
  {
    var lo, hi := 0, a.Length;
    while hi - lo > 1
      invariant 0 <= lo <= hi + 1 && hi == a.Length - lo
      invariant forall j :: 0 <= j < lo || hi <= j < a.Length ==> a[j] == old(a[a.Length - 1 - j])
      invariant forall j :: lo <= j < hi ==> a[j] == old(a[j])
    {
      a[lo], a[hi - 1] := a[hi - 1], a[lo];
      lo, hi := lo + 1, hi - 1;
    }
  }

  /** What the result means: min(k, n) of the pairs, ascending, and below every pair left out. */
  lemma TopKIsLowest(scores: seq<real>, k: int, i: nat)
    requires 0 <= k && i < |scores|
    ensures var r := Sorted(Pairs(scores))[..Min(k, |scores|)];
            && |r| == Min(k, |scores|) && Ascending(r)
            && (forall x :: x in r ==> x in Pairs(scores))
            && ((scores[i], i) in r || forall x :: x in r ==> Before(x, (scores[i], i)))
  {
    var p, all := Pairs(scores), Sorted(Pairs(scores));
    SortedIsAscending(p);
    var r := all[..Min(k, |scores|)];
    forall x | x in r ensures x in p {
      assert x in all && x in multiset(all);
    }
    assert p[i] in multiset(all);
    var j :| 0 <= j < |all| && all[j] == p[i];
    if j < |r| {
      assert r[j] == p[i];
    } else {
      forall x | x in r ensures Before(x, p[i]) {
        var m :| 0 <= m < |r| && r[m] == x;
        assert all[m] == x;
      }
    }
  }

  /**
   * In numbers: along the result scores rise, ties by index, and a pair left out has a score above each one in it,
   * or the same score and a higher index. A negative k leaves out nothing.
   */
  lemma TopKInNumbers(scores: seq<real>, k: int)
    requires -0x8000_0000 <= k && |scores| <= 0x8000_0000_0000_0000
    ensures var r := Sorted(Pairs(scores))[..Min(Capacity(k), |scores|)];
            && |r| == (if 0 <= k < |scores| then k else |scores|)
            && (forall x :: x in r ==> x.1 < |scores| && x.0 == scores[x.1])
            && (forall i, j :: 0 <= i < j < |r| ==> r[i].0 < r[j].0 || (r[i].0 == r[j].0 && r[i].1 < r[j].1))
            && (forall x, i :: x in r && 0 <= i < |scores| && (scores[i], i) !in r ==>
                  x.0 < scores[i] || (x.0 == scores[i] && x.1 < i))
  {
    var r := Sorted(Pairs(scores))[..Min(Capacity(k), |scores|)];
    SortedIsAscending(Pairs(scores));
    forall x, i | x in r && 0 <= i < |scores| && (scores[i], i) !in r
      ensures x.0 < scores[i] || (x.0 == scores[i] && x.1 < i)
    {
      TopKIsLowest(scores, Capacity(k), i);
    }
    forall x | x in r ensures x.1 < |scores| && x.0 == scores[x.1] {
      SortedMember(Pairs(scores), x);
    }
  }

  /** What the function is documented to return: nothing left out scores higher than anything returned. */
  ghost predicate MostSimilar(scores: seq<real>, r: seq<Scored>) {
    forall x, i :: x in r && 0 <= i < |scores| && (scores[i], i) !in r ==> scores[i] <= x.0
  }

  /** It is so exactly when there is nothing to choose. */
  lemma MostSimilarIff(scores: seq<real>, k: int)
    requires 0 <= k
    ensures MostSimilar(scores, Sorted(Pairs(scores))[..Min(k, |scores|)]) <==>
            k == 0 || k >= |scores| || forall i, j :: 0 <= i < |scores| && 0 <= j < |scores| ==> scores[i] == scores[j]
  {
    var p, n, all := Pairs(scores), |scores|, Sorted(Pairs(scores));
    SortedIsAscending(p);
    var r := all[..Min(k, n)];
    forall x | x in all ensures x in p {
      assert x in multiset(all);
    }
    if k >= n {
      forall i | 0 <= i < n ensures (scores[i], i) in r {
        assert r == all && p[i] in multiset(all);
      }
    } else if 0 < k && MostSimilar(scores, r) {
      forall i, j | 0 <= i < n && 0 <= j < n ensures scores[i] == scores[j] {
        SameScore(scores, k, i);
        SameScore(scores, k, j);
      }
    } else if forall i, j :: 0 <= i < n && 0 <= j < n ==> scores[i] == scores[j] {
      forall x, i | x in r && 0 <= i < n && (scores[i], i) !in r ensures scores[i] <= x.0 {
        assert x in all;
        var m :| 0 <= m < n && p[m] == x;
      }
    }
  }

  /** If the lowest k of more pairs are also the highest, every score equals the lowest one. */
  lemma SameScore(scores: seq<real>, k: int, i: nat)
    requires 0 < k < |scores| && i < |scores|
    requires MostSimilar(scores, Sorted(Pairs(scores))[..Min(k, |scores|)])
    ensures scores[i] == Sorted(Pairs(scores))[0].0
  {
    var p, all := Pairs(scores), Sorted(Pairs(scores));
    SortedIsAscending(p);
    var r := all[..k];
    var top := all[|all| - 1];
    assert top in multiset(all);
    var t :| 0 <= t < |p| && p[t] == top;
    assert forall m :: 0 <= m < k ==> r[m] == all[m] && Before(all[m], top);
    assert top !in r;
    assert r[0] in r && scores[t] <= all[0].0;
    assert p[i] in multiset(all);
    var j :| 0 <= j < |all| && all[j] == p[i];
    assert j == 0 || Before(all[0], all[j]);
    assert j == |all| - 1 || Before(all[j], top);
  }

  /** The most similar of two vectors is not the one returned. */
  lemma LeastSimilarIsReturned()
    ensures Sorted(Pairs([1.0, 2.0]))[..1] == [(1.0, 0)]
    ensures !MostSimilar([1.0, 2.0], [(1.0, 0)])
  {
    var p: seq<Scored> := [(1.0, 0), (2.0, 1)];
    assert Pairs([1.0, 2.0]) == p;
    assert p[..1] == [(1.0, 0)] && p[..1][..0] == [];
    assert Sorted([(1.0, 0)]) == [(1.0, 0)];
    assert Sorted(p) == p;
    assert (1.0, 0) in [(1.0, 0)] && [1.0, 2.0][1] == 2.0;
  }
}
