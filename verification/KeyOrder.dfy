/** Bytewise lexicographic order: the order of `std::string` keys and of RocksDB. */
module KeyOrder {
  predicate Leq(a: string, b: string) {
    a == "" || (b != "" && (a[0] < b[0] || (a[0] == b[0] && Leq(a[1..], b[1..]))))
  }

  predicate Less(a: string, b: string) {
    !Leq(b, a)
  }

  lemma {:induction false} LeqTotal(a: string, b: string)
    ensures Leq(a, b) || Leq(b, a)
    ensures Leq(a, b) && Leq(b, a) ==> a == b
  {
    if a != "" && b != "" {
      LeqTotal(a[1..], b[1..]);
      assert a[0] == b[0] && a[1..] == b[1..] ==> a == [a[0]] + a[1..] == b;
    }
  }

  lemma {:induction false} LeqTransitive(a: string, b: string, c: string)
    requires Leq(a, b) && Leq(b, c)
    ensures Leq(a, c)
  {
    if a != "" && a[0] == b[0] == c[0] {
      LeqTransitive(a[1..], b[1..], c[1..]);
    }
  }

  /** The order in terms of positions: a prefix comes first, and otherwise the first difference decides. */
  lemma {:induction false} LeqIff(a: string, b: string)
    ensures Leq(a, b) <==>
            || (|a| <= |b| && a == b[..|a|])
            || (exists i :: 0 <= i < |a| && i < |b| && a[..i] == b[..i] && a[i] < b[i])
    decreases |a|
  {
    if a != "" && b != "" && a[0] == b[0] {
      var t, u := a[1..], b[1..];
      LeqIff(t, u);
      if |t| <= |u| && t == u[..|t|] {
        assert a == [a[0]] + t && b[..|a|] == [b[0]] + u[..|t|];
      }
      if |a| <= |b| && a == b[..|a|] {
        assert t == b[..|a|][1..] == u[..|t|];
      }
      if exists i :: 0 <= i < |t| && i < |u| && t[..i] == u[..i] && t[i] < u[i] {
        var i :| 0 <= i < |t| && i < |u| && t[..i] == u[..i] && t[i] < u[i];
        assert a[..i + 1] == [a[0]] + t[..i] && b[..i + 1] == [b[0]] + u[..i];
        assert a[..i + 1] == b[..i + 1] && a[i + 1] < b[i + 1];
      }
      if exists i :: 0 <= i < |a| && i < |b| && a[..i] == b[..i] && a[i] < b[i] {
        var i :| 0 <= i < |a| && i < |b| && a[..i] == b[..i] && a[i] < b[i];
        assert t[..i - 1] == a[..i][1..] == b[..i][1..] == u[..i - 1];
        assert t[i - 1] < u[i - 1];
      }
    } else if a != "" && b != "" {
      FirstDiffers(a, b);
    }
  }

  lemma FirstDiffers(a: string, b: string)
    requires a != "" && b != "" && a[0] != b[0]
    ensures a != b[..if |a| <= |b| then |a| else |b|]
    ensures (exists i :: 0 <= i < |a| && i < |b| && a[..i] == b[..i] && a[i] < b[i]) <==> a[0] < b[0]
  {
    if a[0] < b[0] {
      assert a[..0] == b[..0];
    }
    forall i | 0 < i < |a| && i < |b| ensures a[..i] != b[..i] {
      assert a[..i][0] == a[0] && b[..i][0] == b[0];
    }
  }
}
