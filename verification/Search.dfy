/** The exact FLAT search and what a filtered search returns. */
module Search {
  import opened Documents
  import opened IntFieldFilter
  import opened Durability
  import opened Settledness

  /** The id selector: no filter, or a bitmap asked with the low 32 bits of the id. */
  predicate Selects(selector: Option<Bitmap>, id: nat) {
    selector.None? || Bit(id) in selector.value
  }

  type Distance = (Vector, Vector) -> real

  /**
   * Faiss's contract for an exact search: `ps` are the positions of the k nearest selected entries, nearest
   * first, or of all of them when there are fewer.
   */
  ghost predicate KNearest(flat: FlatIndex, selector: Option<Bitmap>, query: Vector, dist: Distance, k: nat, ps: seq<nat>) {
    && |ps| <= k
    && (forall i :: 0 <= i < |ps| ==> ps[i] < |flat| && Selects(selector, flat[ps[i]].0))
    && (forall i, j :: 0 <= i < j < |ps| ==> ps[i] != ps[j] && dist(query, flat[ps[i]].1) <= dist(query, flat[ps[j]].1))
    && (forall q :: 0 <= q < |flat| && Selects(selector, flat[q].0) && q !in ps ==>
          |ps| == k && forall i :: 0 <= i < |ps| ==> dist(query, flat[ps[i]].1) <= dist(query, flat[q].1))
  }

  /** The labels Faiss returns: k of them, padded with -1. */
  function Labels(flat: FlatIndex, ps: seq<nat>, k: nat): (labels: seq<int>)
    requires |ps| <= k && forall i :: 0 <= i < |ps| ==> ps[i] < |flat|
    ensures |labels| == k
  {
    seq(k, (i: nat) => if i < |ps| then flat[ps[i]].0 as int else -1)
  }

  /** The labels of an exact search, whichever way it breaks ties. */
  ghost predicate IsAnswer(flat: FlatIndex, selector: Option<Bitmap>, query: Vector, dist: Distance, k: nat, labels: seq<int>) {
    exists ps :: KNearest(flat, selector, query, dist, k, ps) && labels == Labels(flat, ps, k)
  }

  /** The labels are the ids at these positions, followed by padding. */
  ghost predicate Names(flat: FlatIndex, ps: seq<nat>, k: nat, labels: seq<int>) {
    && |ps| <= k == |labels|
    && (forall i :: 0 <= i < |ps| ==> ps[i] < |flat| && labels[i] == flat[ps[i]].0)
    && (forall i :: |ps| <= i < k ==> labels[i] == -1)
    && (forall i, j :: 0 <= i < j < |ps| ==> ps[i] != ps[j])
  }

  /**
   * What an answer means, entry by entry: without a filter all entries compete, with one those whose id, in 32
   * bits, is in the bitmap. The answer names k of them, or all if there are fewer, nearest first, and no other
   * is nearer than any it names.
   */
  lemma AnswerIsNearest(flat: FlatIndex, selector: Option<Bitmap>, query: Vector, dist: Distance, k: nat, labels: seq<int>)
    requires IsAnswer(flat, selector, query, dist, k, labels)
    ensures exists ps :: Names(flat, ps, k, labels)
              && (forall i :: 0 <= i < |ps| && selector.Some? ==> flat[ps[i]].0 % 4294967296 in selector.value)
              && (forall i, j :: 0 <= i < j < |ps| ==> dist(query, flat[ps[i]].1) <= dist(query, flat[ps[j]].1))
              && (forall q :: 0 <= q < |flat| && (selector.None? || flat[q].0 % 4294967296 in selector.value) && q !in ps ==>
                    |ps| == k && forall i :: 0 <= i < |ps| ==> dist(query, flat[ps[i]].1) <= dist(query, flat[q].1))
  {
    var ps :| KNearest(flat, selector, query, dist, k, ps) && labels == Labels(flat, ps, k);
    assert Names(flat, ps, k, labels);
  }

  /** Selection by repeated scans meets the contract. */
  method FlatSearch(flat: FlatIndex, selector: Option<Bitmap>, query: Vector, dist: Distance, k: nat) returns (ps: seq<nat>)
    ensures KNearest(flat, selector, query, dist, k, ps)
  {
    ps := [];
    while |ps| < k
      invariant |ps| <= k
      invariant forall i :: 0 <= i < |ps| ==> ps[i] < |flat| && Selects(selector, flat[ps[i]].0)
      invariant forall i, j :: 0 <= i < j < |ps| ==> ps[i] != ps[j] && dist(query, flat[ps[i]].1) <= dist(query, flat[ps[j]].1)
      invariant forall q :: 0 <= q < |flat| && Selects(selector, flat[q].0) && q !in ps ==>
                  forall i :: 0 <= i < |ps| ==> dist(query, flat[ps[i]].1) <= dist(query, flat[q].1)
      decreases k - |ps|
    {
      var found, best := Nearest(flat, selector, query, dist, ps);
      if !found {
        return;
      }
      ps := ps + [best];
    }
  }

  method Nearest(flat: FlatIndex, selector: Option<Bitmap>, query: Vector, dist: Distance, taken: seq<nat>)
    returns (found: bool, best: nat)
    ensures found ==> best < |flat| && Selects(selector, flat[best].0) && best !in taken
    ensures forall q :: 0 <= q < |flat| && Selects(selector, flat[q].0) && q !in taken ==>
              found && dist(query, flat[best].1) <= dist(query, flat[q].1)
  {
    found, best := false, 0;
    var i := 0;
    while i < |flat|
      invariant 0 <= i <= |flat|
      invariant found ==> best < |flat| && Selects(selector, flat[best].0) && best !in taken
      invariant forall q :: 0 <= q < i && Selects(selector, flat[q].0) && q !in taken ==>
                  found && dist(query, flat[best].1) <= dist(query, flat[q].1)
    {
      if Selects(selector, flat[i].0) && i !in taken && (!found || dist(query, flat[i].1) < dist(query, flat[best].1)) {
        found, best := true, i;
      }
      i := i + 1;
    }
  }

  /** A filter request; the original takes every operator but "=" for "!=". */
  datatype FilterRequest = FilterRequest(fieldName: string, op: string, value: int)

  function OperationOf(op: string): Operation {
    if op == "=" then EQUAL else NOT_EQUAL
  }

  function FilterBitmap(filter: Filter, r: FilterRequest): Bitmap {
    if OperationOf(r.op) == EQUAL then Bits(filter, r.fieldName, r.value)
    else Others(ValuesOf(filter, r.fieldName), r.value)
  }

  /** What the request means: the document carries the field, with the value or with another one. */
  predicate Satisfies(d: Doc, r: FilterRequest) {
    && r.fieldName in d.ints && Has(d, r.fieldName, d.ints[r.fieldName])
    && if r.op == "=" then d.ints[r.fieldName] == r.value else d.ints[r.fieldName] != r.value
  }

  /** The bitmap of a request holds exactly the ids whose stored document satisfies it. */
  lemma FilterBitmapIsExact(scalar: map<nat, Doc>, filter: Filter, r: FilterRequest, id: nat)
    requires Agrees(scalar, filter)
    ensures id in FilterBitmap(filter, r) <==> id in scalar && Satisfies(scalar[id], r)
  {
    var f := r.fieldName;
    if OperationOf(r.op) != EQUAL {
      if id in FilterBitmap(filter, r) {
        var v :| v != r.value && id in BitmapOf(ValuesOf(filter, f), v);
        assert id in Bits(filter, f, v);
      }
      if id in scalar && Satisfies(scalar[id], r) {
        var v := IntFields(scalar[id])[f];
        assert id in Bits(filter, f, v);
      }
    } else {
      assert id in Bits(filter, f, r.value) <==> id in scalar && Has(scalar[id], f, r.value);
    }
  }

  /** "=" and "!=" split the ids that carry the field into two disjoint bitmaps. */
  lemma EqualAndNotEqualPartition(scalar: map<nat, Doc>, filter: Filter, f: string, v: int)
    requires Agrees(scalar, filter)
    ensures var eq, ne := FilterBitmap(filter, FilterRequest(f, "=", v)), FilterBitmap(filter, FilterRequest(f, "!=", v));
            && eq !! ne
            && forall id :: id in eq + ne <==> id in scalar && f in IntFields(scalar[id])
  {
    var re, rn := FilterRequest(f, "=", v), FilterRequest(f, "!=", v);
    forall id
      ensures id in FilterBitmap(filter, re) + FilterBitmap(filter, rn) <==> id in scalar && f in IntFields(scalar[id])
      ensures !(id in FilterBitmap(filter, re) && id in FilterBitmap(filter, rn))
    {
      FilterBitmapIsExact(scalar, filter, re, id);
      FilterBitmapIsExact(scalar, filter, rn, id);
    }
  }

  lemma {:induction false} VectorsAreListed(flat: FlatIndex, id: nat)
    ensures VectorsOf(flat, id) != [] <==> exists q :: 0 <= q < |flat| && flat[q].0 == id
    decreases |flat|
  {
    if flat != [] {
      var front := flat[..|flat| - 1];
      VectorsAreListed(front, id);
      if exists q :: 0 <= q < |flat| && flat[q].0 == id {
        var q :| 0 <= q < |flat| && flat[q].0 == id;
        assert q < |flat| - 1 ==> front[q].0 == id;
      }
      if exists q :: 0 <= q < |front| && front[q].0 == id {
        var q :| 0 <= q < |front| && front[q].0 == id;
        assert flat[q].0 == id;
      }
    }
  }

  lemma {:induction false} TwoPositions(flat: FlatIndex, p: nat, q: nat)
    requires p < q < |flat| && flat[p].0 == flat[q].0
    ensures |VectorsOf(flat, flat[p].0)| >= 2
    decreases |flat|
  {
    var front := flat[..|flat| - 1];
    if q < |flat| - 1 {
      TwoPositions(front, p, q);
    } else {
      VectorsAreListed(front, flat[p].0);
      assert front[p].0 == flat[p].0;
    }
  }

  /** The answer is the id of a stored document that satisfies the filter and has a FLAT vector. */
  ghost predicate IsHit(scalar: map<nat, Doc>, ix: Indexes, r: FilterRequest, answer: int) {
    answer >= 0 && (var id: nat := answer; id in scalar && Satisfies(scalar[id], r) && VectorsOf(ix.flat, id) != [])
  }

  ghost predicate OncePerId(flat: FlatIndex) {
    forall id :: |VectorsOf(flat, id)| <= 1
  }

  /**
   * Filtered FLAT search end to end: every label is the padding or the id of a stored document that satisfies
   * the filter and has a FLAT vector, with k at least the size of the index none is missing, and no label appears
   * twice if the list has one vector per id.
   */
  lemma FilteredSearch(scalar: map<nat, Doc>, ix: Indexes, r: FilterRequest, query: Vector, dist: Distance, k: nat, labels: seq<int>)
    requires Agrees(scalar, ix.filter)
    requires forall id :: id in scalar ==> Narrow(id)
    requires forall id :: VectorsOf(ix.flat, id) != [] ==> id in scalar
    requires IsAnswer(ix.flat, Some(FilterBitmap(ix.filter, r)), query, dist, k, labels)
    ensures forall i :: 0 <= i < |labels| && labels[i] != -1 ==> IsHit(scalar, ix, r, labels[i])
    ensures OncePerId(ix.flat) ==> forall i, j :: 0 <= i < j < |labels| && labels[i] != -1 ==> labels[i] != labels[j]
    ensures k >= |ix.flat| ==>
              forall id: nat :: IsHit(scalar, ix, r, id) ==> id in labels
  {
    var selector := Some(FilterBitmap(ix.filter, r));
    var ps :| KNearest(ix.flat, selector, query, dist, k, ps) && labels == Labels(ix.flat, ps, k);
    OnlyHits(scalar, ix, r, query, dist, k, ps);
    if OncePerId(ix.flat) {
      DifferentLabels(ix.flat, ps);
    }
    if k >= |ix.flat| {
      AllHits(scalar, ix, r, query, dist, k, ps);
    }
  }

  lemma OnlyHits(scalar: map<nat, Doc>, ix: Indexes, r: FilterRequest, query: Vector, dist: Distance, k: nat, ps: seq<nat>)
    requires Agrees(scalar, ix.filter)
    requires forall id :: id in scalar ==> Narrow(id)
    requires forall id :: VectorsOf(ix.flat, id) != [] ==> id in scalar
    requires KNearest(ix.flat, Some(FilterBitmap(ix.filter, r)), query, dist, k, ps)
    ensures forall i :: 0 <= i < |ps| ==> IsHit(scalar, ix, r, ix.flat[ps[i]].0)
  {
    forall i | 0 <= i < |ps| ensures IsHit(scalar, ix, r, ix.flat[ps[i]].0) {
      VectorsAreListed(ix.flat, ix.flat[ps[i]].0);
      FilterBitmapIsExact(scalar, ix.filter, r, ix.flat[ps[i]].0);
    }
  }

  lemma AllHits(scalar: map<nat, Doc>, ix: Indexes, r: FilterRequest, query: Vector, dist: Distance, k: nat, ps: seq<nat>)
    requires Agrees(scalar, ix.filter) && k >= |ix.flat|
    requires forall id :: id in scalar ==> Narrow(id)
    requires KNearest(ix.flat, Some(FilterBitmap(ix.filter, r)), query, dist, k, ps)
    ensures forall id: nat :: IsHit(scalar, ix, r, id) ==> id in Labels(ix.flat, ps, k)
  {
    forall id: nat | IsHit(scalar, ix, r, id) ensures id in Labels(ix.flat, ps, k) {
      FilterBitmapIsExact(scalar, ix.filter, r, id);
      NothingMissing(ix.flat, Some(FilterBitmap(ix.filter, r)), query, dist, k, ps, id);
    }
  }

  /** Different positions of a list with at most one vector per id hold different ids. */
  lemma DifferentLabels(flat: FlatIndex, ps: seq<nat>)
    requires OncePerId(flat)
    requires forall i :: 0 <= i < |ps| ==> ps[i] < |flat|
    requires forall i, j :: 0 <= i < j < |ps| ==> ps[i] != ps[j]
    ensures forall i, j :: 0 <= i < j < |ps| ==> flat[ps[i]].0 != flat[ps[j]].0
  {
    forall i, j | 0 <= i < j < |ps| ensures flat[ps[i]].0 != flat[ps[j]].0 {
      if flat[ps[i]].0 == flat[ps[j]].0 {
        TwoPositions(flat, if ps[i] < ps[j] then ps[i] else ps[j], if ps[i] < ps[j] then ps[j] else ps[i]);
      }
    }
  }

  /** With room for the whole index, every selected entry is among the labels. */
  lemma NothingMissing(flat: FlatIndex, selector: Option<Bitmap>, query: Vector, dist: Distance, k: nat, ps: seq<nat>, id: nat)
    requires KNearest(flat, selector, query, dist, k, ps) && k >= |flat|
    requires Selects(selector, id) && VectorsOf(flat, id) != []
    ensures id in Labels(flat, ps, k)
  {
    VectorsAreListed(flat, id);
    var q :| 0 <= q < |flat| && flat[q].0 == id;
    if q !in ps {
      DistinctPositions([q] + ps, |flat|);
    } else {
      var i :| 0 <= i < |ps| && ps[i] == q;
      assert Labels(flat, ps, k)[i] == id;
    }
  }

  /** Distinct positions below n are at most n: take one away and close the gap. */
  lemma {:induction false} DistinctPositions(ps: seq<nat>, n: nat)
    requires forall i :: 0 <= i < |ps| ==> ps[i] < n
    requires forall i, j :: 0 <= i < j < |ps| ==> ps[i] != ps[j]
    ensures |ps| <= n
    decreases |ps|
  {
    if ps != [] {
      var x := ps[|ps| - 1];
      var rest: seq<nat> := seq(|ps| - 1, i requires 0 <= i < |ps| - 1 => if ps[i] > x then ps[i] - 1 else ps[i]);
      DistinctPositions(rest, n - 1);
    }
  }
}
