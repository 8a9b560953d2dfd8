/** `scan_page`: pages of the keys with a prefix and up to a bound, read off an ordered key-value store. */
module ScalarScan {

  import opened KeyOrder

  predicate HasPrefix(k: string, p: string) {
    |p| <= |k| && k[..|p|] == p
  }

  lemma {:induction false} PrefixIsLeq(p: string, k: string)
    requires HasPrefix(k, p)
    ensures Leq(p, k)
  {
    if p != "" {
      assert k[1..][..|p| - 1] == k[..|p|][1..] == p[1..];
      PrefixIsLeq(p[1..], k[1..]);
    }
  }

  /** Keys with a common prefix are contiguous: nothing between the prefix and such a key lacks it. */
  lemma {:induction false} PrefixIsConvex(p: string, k: string, l: string)
    requires Leq(p, k) && Leq(k, l) && HasPrefix(l, p)
    ensures HasPrefix(k, p)
  {
    if p != "" {
      assert l[..|p|][0] == l[0];
      assert p[0] == k[0] == l[0];
      assert l[1..][..|p| - 1] == l[..|p|][1..] == p[1..];
      PrefixIsConvex(p[1..], k[1..], l[1..]);
      assert k[..|p|] == [k[0]] + k[1..][..|p| - 1] == p;
    }
  }

  // ---------------------------------------------------------------------------------------------
  // The store and the keys a request matches
  // ---------------------------------------------------------------------------------------------

  type Pair = (string, string)

  ghost predicate Ordered(db: seq<Pair>) {
    forall i, j :: 0 <= i < j < |db| ==> Less(db[i].0, db[j].0)
  }

  predicate InRange(k: string, prefix: string, upper: string) {
    (prefix == "" || HasPrefix(k, prefix)) && (upper == "" || Leq(k, upper))
  }

  function Matching(db: seq<Pair>, prefix: string, upper: string): seq<Pair> {
    if db == [] then [] else
      Matching(db[..|db| - 1], prefix, upper) + if InRange(db[|db| - 1].0, prefix, upper) then [db[|db| - 1]] else []
  }

  /** From the first key at or above the prefix, a mismatch is final. */
  lemma MismatchIsFinal(db: seq<Pair>, prefix: string, upper: string, i: nat, j: nat)
    requires Ordered(db) && i <= j < |db|
    requires Leq(prefix, db[i].0) && !InRange(db[i].0, prefix, upper)
    ensures !InRange(db[j].0, prefix, upper)
  {
    if i < j {
      LeqTotal(db[i].0, db[j].0);
      assert Less(db[i].0, db[j].0);
      if InRange(db[j].0, prefix, upper) {
        if prefix != "" {
          PrefixIsConvex(prefix, db[i].0, db[j].0);
        }
        if upper != "" {
          LeqTransitive(db[i].0, db[j].0, upper);
        }
      }
    }
  }

  /** The matching pairs are the stretch of the store from the seek position to the first mismatch. */
  lemma {:induction false} MatchingIsContiguous(db: seq<Pair>, prefix: string, upper: string, lo: nat) returns (hi: nat)
    requires Ordered(db) && lo <= |db|
    requires forall i :: 0 <= i < |db| ==> (i < lo <==> Less(db[i].0, prefix))
    ensures lo <= hi <= |db| && Matching(db, prefix, upper) == db[lo..hi]
    ensures forall i :: lo <= i < hi ==> InRange(db[i].0, prefix, upper)
    ensures hi < |db| ==> !InRange(db[hi].0, prefix, upper)
  {
    if lo == |db| {
      hi := lo;
      forall i | 0 <= i < |db| ensures !InRange(db[i].0, prefix, upper) {
        BelowPrefix(db[i].0, prefix, upper);
      }
      NothingMatches(db, prefix, upper);
    } else {
      var front, last := db[..|db| - 1], db[|db| - 1].0;
      hi := MatchingIsContiguous(front, prefix, upper, lo);
      if hi < |front| {
        MismatchIsFinal(db, prefix, upper, hi, |db| - 1);
        assert db[lo..hi] == front[lo..hi];
      } else if InRange(last, prefix, upper) {
        hi := |db|;
        assert db[lo..hi] == front[lo..hi - 1] + [db[hi - 1]];
      } else {
        assert db[lo..hi] == front[lo..hi];
      }
    }
  }

  lemma BelowPrefix(k: string, prefix: string, upper: string)
    requires Less(k, prefix)
    ensures !InRange(k, prefix, upper)
  {
    if prefix != "" && HasPrefix(k, prefix) {
      PrefixIsLeq(prefix, k);
    }
  }

  lemma {:induction false} NothingMatches(db: seq<Pair>, prefix: string, upper: string)
    requires forall i :: 0 <= i < |db| ==> !InRange(db[i].0, prefix, upper)
    ensures Matching(db, prefix, upper) == []
  {
    if db != [] {
      NothingMatches(db[..|db| - 1], prefix, upper);
    }
  }

  // ---------------------------------------------------------------------------------------------
  // Pages
  // ---------------------------------------------------------------------------------------------

  const WORD: nat := 0x1_0000_0000_0000_0000

  datatype Page = Page(items: seq<Pair>, hasMore: bool)

  function Clip(n: nat, s: seq<Pair>): (r: nat)
    ensures r <= |s|
  {
    if n <= |s| then n else |s|
  }

  /** `s[from..from + size)`, cut off at the end. */
  function Slice(s: seq<Pair>, from: nat, size: nat): seq<Pair> {
    s[Clip(from, s)..Clip(from + size, s)]
  }

  /** The number of matches to skip, in 64-bit unsigned arithmetic. */
  function Skip(pageNum: nat, pageSize: nat): nat
    requires pageNum > 0
  {
    (pageNum - 1) * pageSize % WORD
  }

  /** RocksDB's `Seek`: the first position whose key is not below the target. */
  method Seek(db: seq<Pair>, target: string) returns (lo: nat)
    requires Ordered(db)
    ensures lo <= |db| && forall i :: 0 <= i < |db| ==> (i < lo <==> Less(db[i].0, target))
  {
    lo := 0;
    while lo < |db| && Less(db[lo].0, target)
      invariant lo <= |db| && forall i :: 0 <= i < lo ==> Less(db[i].0, target)
    {
      lo := lo + 1;
    }
    forall i | lo <= i < |db| ensures Leq(target, db[i].0) {
      LeqTotal(db[lo].0, db[i].0);
      LeqTransitive(target, db[lo].0, db[i].0);
    }
  }

  method ScanPage(db: seq<Pair>, prefix: string, upper: string, pageNum: nat, pageSize: nat) returns (page: Page)
    requires Ordered(db)
    ensures pageNum == 0 || pageSize == 0 ==> page == Page([], false)
    ensures pageNum > 0 && pageSize > 0 ==>
              var m, skip := Matching(db, prefix, upper), Skip(pageNum, pageSize);
              page.items == Slice(m, skip, pageSize) && (page.hasMore <==> skip + pageSize < |m|)
    ensures forall x :: x in page.items ==>
              x in db && |prefix| <= |x.0| && x.0[..|prefix|] == prefix && (upper == "" || Leq(x.0, upper))
    ensures |page.items| <= pageSize && (pageNum > 0 && page.hasMore ==> |page.items| == pageSize)
  {
    MatchingIs(db, prefix, upper);
    if pageSize == 0 || pageNum == 0 {
      return Page([], false);
    }
    var it := 0;
    if prefix != "" {
      it := Seek(db, prefix);
    }
    ghost var hi := MatchingIsContiguous(db, prefix, upper, it);
    var skip := (pageNum - 1) * pageSize % WORD;
    page := Collect(db, prefix, upper, it, skip, pageSize, hi);
  }

  /** The iterator loop, from the seek position. */
  method Collect(db: seq<Pair>, prefix: string, upper: string, lo: nat, all: nat, pageSize: nat, ghost hi: nat)
    returns (page: Page)
    requires pageSize > 0 && lo <= hi <= |db| && Matching(db, prefix, upper) == db[lo..hi]
    requires forall i :: lo <= i < hi ==> InRange(db[i].0, prefix, upper)
    requires hi < |db| ==> !InRange(db[hi].0, prefix, upper)
    ensures page.items == Slice(Matching(db, prefix, upper), all, pageSize)
    ensures page.hasMore <==> all + pageSize < |Matching(db, prefix, upper)|
  {
    ghost var m := Matching(db, prefix, upper);
    var it, skip := lo, all;
    var items: seq<Pair> := [];
    var hasMore := false;
    while it < |db|
      invariant lo <= it <= hi
      invariant 0 <= skip <= all && |items| <= pageSize
      invariant skip > 0 ==> items == [] && it - lo == all - skip
      invariant skip == 0 ==> it - lo == all + |items| && items == m[all..it - lo]
      invariant !hasMore
    {
      if !InRange(db[it].0, prefix, upper) {
        break;
      }
      if skip > 0 {
        skip := skip - 1;
        it := it + 1;
        continue;
      }
      if |items| < pageSize {
        assert m[it - lo] == db[it] && m[all..it - lo + 1] == m[all..it - lo] + [m[it - lo]];
        items := items + [db[it]];
        it := it + 1;
        continue;
      }
      hasMore := true;
      break;
    }
    if |items| == pageSize && !hasMore && it < |db| {
      hasMore := InRange(db[it].0, prefix, upper);
    }
    page := Page(items, hasMore);
  }

  /** The page asked for is the slice of the matches, unless the product of the arguments wraps around into them. */
  lemma PageIsSliceIff(db: seq<Pair>, prefix: string, upper: string, pageNum: nat, pageSize: nat)
    requires pageNum > 0 && pageSize > 0 && |Matching(db, prefix, upper)| <= WORD
    ensures var m := Matching(db, prefix, upper);
            Slice(m, Skip(pageNum, pageSize), pageSize) == Slice(m, (pageNum - 1) * pageSize, pageSize) <==>
            (pageNum - 1) * pageSize < WORD || |m| <= Skip(pageNum, pageSize)
  {
    WrappedSlice(Matching(db, prefix, upper), (pageNum - 1) * pageSize, pageSize);
  }

  lemma WrappedSlice(m: seq<Pair>, product: nat, size: nat)
    requires size > 0 && |m| <= WORD
    ensures Slice(m, product % WORD, size) == Slice(m, product, size) <==> product < WORD || |m| <= product % WORD
  {
    if product >= WORD {
      assert Slice(m, product, size) == [];
      assert |m| > product % WORD ==> |Slice(m, product % WORD, size)| > 0;
    }
  }

  /** The matches in terms of the keys: the pairs whose key begins with the prefix and does not exceed the bound. */
  lemma MatchingIs(db: seq<Pair>, prefix: string, upper: string)
    requires Ordered(db)
    ensures forall x :: x in Matching(db, prefix, upper) <==>
              x in db && |prefix| <= |x.0| && x.0[..|prefix|] == prefix && (upper == "" || Leq(x.0, upper))
  {
    MatchingIsOrdered(db, prefix, upper);
  }

  /** Page by page: item i of page n is the match with (n - 1) * size + i matches before it, in 64-bit arithmetic. */
  lemma PageItem(db: seq<Pair>, prefix: string, upper: string, pageNum: nat, pageSize: nat, i: nat)
    requires pageNum > 0 && pageSize > 0
    ensures var m, from := Matching(db, prefix, upper), (pageNum - 1) * pageSize % 18446744073709551616;
            var items := Slice(m, Skip(pageNum, pageSize), pageSize);
            && (i < |items| <==> i < pageSize && from + i < |m|)
            && (i < |items| ==> items[i] == m[from + i])
  {
  }

  /** A page that begins where the pages before it end continues them. */
  lemma NextPage(m: seq<Pair>, n: nat, pageNum: nat, pageSize: nat)
    requires pageNum > 0 && n == (pageNum - 1) * pageSize < WORD
    ensures Skip(pageNum, pageSize) == n && pageNum * pageSize == n + pageSize
    ensures m[..Clip(n, m)] + Slice(m, n, pageSize) == m[..Clip(n + pageSize, m)]
  {
    assert pageNum * pageSize == (pageNum - 1) * pageSize + pageSize;
  }

  /** Following `has_more` from page 1 yields every matching pair exactly once, in key order. */
  method FollowPages(db: seq<Pair>, prefix: string, upper: string, pageSize: nat) returns (all: seq<Pair>)
    requires Ordered(db) && pageSize > 0 && |Matching(db, prefix, upper)| <= WORD
    ensures all == Matching(db, prefix, upper)
    ensures forall x :: x in all <==>
              x in db && |prefix| <= |x.0| && x.0[..|prefix|] == prefix && (upper == "" || Leq(x.0, upper))
    ensures forall i, j :: 0 <= i < j < |all| ==> Less(all[i].0, all[j].0)
  {
    ghost var m := Matching(db, prefix, upper);
    all := [];
    var pageNum, more := 1, true;
    while more
      invariant pageNum >= 1
      invariant more ==> |all| == (pageNum - 1) * pageSize && |all| < WORD && all == m[..Clip(|all|, m)]
      invariant !more ==> all == m
      decreases more, |m| - |all|
    {
      var page := ScanPage(db, prefix, upper, pageNum, pageSize);
      NextPage(m, |all|, pageNum, pageSize);
      all := all + page.items;
      more := page.hasMore;
      pageNum := pageNum + 1;
    }
    MatchingIsOrdered(db, prefix, upper);
    MatchingIs(db, prefix, upper);
  }

  lemma {:induction false} MatchingIsOrdered(db: seq<Pair>, prefix: string, upper: string)
    requires Ordered(db)
    ensures Ordered(Matching(db, prefix, upper))
    ensures forall x :: x in Matching(db, prefix, upper) <==> x in db && InRange(x.0, prefix, upper)
  {
    if db != [] {
      var front := db[..|db| - 1];
      MatchingIsOrdered(front, prefix, upper);
      assert db == front + [db[|db| - 1]];
      assert forall x :: x in front ==> Less(x.0, db[|db| - 1].0);
    }
  }
}
