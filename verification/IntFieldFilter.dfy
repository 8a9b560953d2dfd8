/** `FilterIndex`: field -> value -> bitmap of 32-bit document ids. */
module IntFieldFilter {
  import opened Documents

  type Bitmap = set<nat>
  type ValueMap = map<int, Bitmap>
  type Filter = map<string, ValueMap>

  datatype Operation = EQUAL | NOT_EQUAL

  /** Roaring bitmaps hold `uint32_t`: a 64-bit id is truncated on the way in. */
  function Bit(id: nat): nat {
    id % 0x1_0000_0000
  }

  predicate Narrow(id: nat) {
    id < 0x1_0000_0000
  }

  function ValuesOf(filter: Filter, field: string): ValueMap {
    if field in filter then filter[field] else map[]
  }

  function BitmapOf(values: ValueMap, v: int): Bitmap {
    if v in values then values[v] else {}
  }

  function Bits(filter: Filter, field: string, v: int): Bitmap {
    BitmapOf(ValuesOf(filter, field), v)
  }

  /** The value map after `id` leaves its old value and joins value `v`. */
  function Moved(values: ValueMap, previous: Option<int>, v: int, id: nat): ValueMap {
    var cleared := if previous.Some? && previous.value in values
                   then values[previous.value := values[previous.value] - {Bit(id)}] else values;
    cleared[v := BitmapOf(cleared, v) + {Bit(id)}]
  }

  class FilterIndex {
    var intFieldFilter: Filter

    constructor ()
      ensures intFieldFilter == map[]
    {
      intFieldFilter := map[];
    }

    /** Installs a fresh bitmap: whatever bitmap stood at (field, value) is lost. */
    method AddIntFieldFilter(field: string, value: int, id: nat)
      modifies this
      ensures intFieldFilter == old(intFieldFilter)[field := ValuesOf(old(intFieldFilter), field)[value := {Bit(id)}]]
    {
      var bitmap := {Bit(id)};
      var values := if field in intFieldFilter then intFieldFilter[field] else map[];
      intFieldFilter := intFieldFilter[field := values[value := bitmap]];
    }

    method UpdateIntFieldFilter(field: string, oldValue: Option<int>, newValue: int, id: nat)
      modifies this
      ensures intFieldFilter
           == old(intFieldFilter)[field := Moved(ValuesOf(old(intFieldFilter), field), oldValue, newValue, id)]
    {
      if field in intFieldFilter {
        var values := intFieldFilter[field];
        if oldValue.Some? && oldValue.value in values {
          values := values[oldValue.value := values[oldValue.value] - {Bit(id)}];
        }
        if newValue !in values {
          values := values[newValue := {}];
        }
        values := values[newValue := values[newValue] + {Bit(id)}];
        intFieldFilter := intFieldFilter[field := values];
        assert values == Moved(old(intFieldFilter)[field], oldValue, newValue, id);
      } else {
        AddIntFieldFilter(field, newValue, id);
        assert BitmapOf(map[], newValue) + {Bit(id)} == {Bit(id)};
      }
    }

    /** ORs the selected bitmaps into `seed`. */
    method GetIntFieldFilterBitmap(field: string, op: Operation, value: int, seed: Bitmap) returns (result: Bitmap)
      ensures op.EQUAL? ==> result == seed + Bits(intFieldFilter, field, value)
      ensures op.NOT_EQUAL? ==>
                result == seed + Others(ValuesOf(intFieldFilter, field), value)
    {
      result := seed;
      if field in intFieldFilter {
        var values := intFieldFilter[field];
        if op == EQUAL {
          if value in values {
            result := result + values[value];
          }
        } else {
          result := OrAllBut(values, value, result);
        }
      }
    }
  }

  /** The union of the bitmaps of every value but one. */
  function Others(values: ValueMap, value: int): (others: Bitmap)
    ensures forall b :: b in others <==> exists v :: v != value && b in BitmapOf(values, v)
  {
    OthersAmong(values, values.Keys, value)
  }

  function OthersAmong(values: ValueMap, keys: set<int>, value: int): Bitmap {
    set v, b | v in keys && v != value && b in BitmapOf(values, v) :: b
  }

  lemma OthersGrow(values: ValueMap, keys: set<int>, value: int, v: int)
    ensures OthersAmong(values, keys + {v}, value)
         == OthersAmong(values, keys, value) + if v == value then {} else BitmapOf(values, v)
  {
  }

  /** The NOT_EQUAL loop over the value map. */
  method OrAllBut(values: ValueMap, value: int, seed: Bitmap) returns (result: Bitmap)
    ensures result == seed + Others(values, value)
  {
    result := seed;
    var todo: set<int> := values.Keys;
    while todo != {}
      invariant todo <= values.Keys
      invariant result == seed + OthersAmong(values, values.Keys - todo, value)
    {
      var v := Pick(todo);
      OthersGrow(values, values.Keys - todo, value, v);
      if v != value {
        result := result + values[v];
      }
      assert values.Keys - (todo - {v}) == (values.Keys - todo) + {v};
      todo := todo - {v};
    }
    assert values.Keys - todo == values.Keys;
  }

  // ---------------------------------------------------------------------------------------------
  // What one `upsert` does to the filter
  // ---------------------------------------------------------------------------------------------

  /** `existing[field]` must exist and be an integer for every indexed field, else rapidjson's assertion aborts. */
  predicate Aborts(existing: Option<Doc>, d: Doc) {
    existing.Some? && !(IntFields(d).Keys <= existing.value.ints.Keys)
  }

  function OldValue(existing: Option<Doc>, field: string): Option<int>
    requires existing.Some? ==> field in existing.value.ints
  {
    if existing.Some? then Some(existing.value.ints[field]) else None
  }

  /** The filter after the member loop has handled the fields in `fields`. */
  function ReindexedOn(filter: Filter, existing: Option<Doc>, d: Doc, fields: set<string>): Filter
    requires fields <= IntFields(d).Keys
    requires existing.Some? ==> fields <= existing.value.ints.Keys
  {
    map f | f in filter.Keys + fields ::
      if f in fields then Moved(ValuesOf(filter, f), OldValue(existing, f), d.ints[f], d.id) else filter[f]
  }

  lemma ReindexOneMore(filter: Filter, existing: Option<Doc>, d: Doc, fields: set<string>, f: string)
    requires fields <= IntFields(d).Keys && f in IntFields(d) && f !in fields
    requires existing.Some? ==> fields + {f} <= existing.value.ints.Keys
    ensures ReindexedOn(filter, existing, d, fields + {f})
         == (var before := ReindexedOn(filter, existing, d, fields);
             before[f := Moved(ValuesOf(before, f), OldValue(existing, f), d.ints[f], d.id)])
  {
    var before := ReindexedOn(filter, existing, d, fields);
    assert ValuesOf(before, f) == ValuesOf(filter, f);
  }

  function Reindexed(filter: Filter, existing: Option<Doc>, d: Doc): Filter
    requires !Aborts(existing, d)
  {
    ReindexedOn(filter, existing, d, IntFields(d).Keys)
  }

  /** The effect of the member loop so far, bit by bit: only the document's own bit moves, and only in these fields. */
  lemma ReindexedOnBits(filter: Filter, existing: Option<Doc>, d: Doc, fields: set<string>, f: string, v: int, b: nat)
    requires fields <= IntFields(d).Keys && (existing.Some? ==> fields <= existing.value.ints.Keys)
    ensures b in Bits(ReindexedOn(filter, existing, d, fields), f, v) <==>
              || (b == Bit(d.id) && f in fields && d.ints[f] == v)
              || (b in Bits(filter, f, v)
                  && !(b == Bit(d.id) && f in fields && existing.Some? && existing.value.ints[f] == v))
  {
    var filter' := ReindexedOn(filter, existing, d, fields);
    if f in fields {
      assert ValuesOf(filter', f) == Moved(ValuesOf(filter, f), OldValue(existing, f), d.ints[f], d.id);
    } else {
      assert ValuesOf(filter', f) == ValuesOf(filter, f);
    }
  }

  /** The effect of an upsert, bit by bit: only the document's own bit moves, and only in the fields it carries. */
  lemma ReindexedBits(filter: Filter, existing: Option<Doc>, d: Doc, f: string, v: int, b: nat)
    requires !Aborts(existing, d)
    ensures b in Bits(Reindexed(filter, existing, d), f, v) <==>
              || (b == Bit(d.id) && Has(d, f, v))
              || (b in Bits(filter, f, v)
                  && !(b == Bit(d.id) && f in IntFields(d) && existing.Some? && existing.value.ints[f] == v))
  {
    ReindexedOnBits(filter, existing, d, IntFields(d).Keys, f, v, b);
  }

  // ---------------------------------------------------------------------------------------------
  // Agreement of the filter with the stored documents
  // ---------------------------------------------------------------------------------------------

  ghost predicate Agrees(scalar: map<nat, Doc>, filter: Filter) {
    forall f, v, id :: id in Bits(filter, f, v) <==> id in scalar && Has(scalar[id], f, v)
  }

  /** Bitmaps hold 32-bit numbers. */
  ghost predicate BitsFit(filter: Filter) {
    forall f, v, b :: b in Bits(filter, f, v) ==> Narrow(b)
  }

  lemma UpsertKeepsBitsFit(filter: Filter, existing: Option<Doc>, d: Doc)
    requires BitsFit(filter) && !Aborts(existing, d)
    ensures BitsFit(Reindexed(filter, existing, d))
  {
    forall f, v, b | b in Bits(Reindexed(filter, existing, d), f, v) ensures Narrow(b) {
      ReindexedBits(filter, existing, d, f, v, b);
    }
  }

  /** A document with indexed fields has an id that fits a bitmap. */
  predicate Indexable(d: Doc) {
    IntFields(d).Keys != {} ==> Narrow(d.id)
  }

  lemma NarrowUpsert(scalar: map<nat, Doc>, filter: Filter, d: Doc)
    requires Agrees(scalar, filter) && Indexable(d)
    requires !Aborts(At(scalar, d.id), d)
    ensures Agrees(scalar[d.id := d], Reindexed(filter, At(scalar, d.id), d)) <==>
            (d.id in scalar ==> IntFields(scalar[d.id]).Keys <= IntFields(d).Keys)
  {
    var existing := At(scalar, d.id);
    var filter' := Reindexed(filter, existing, d);
    forall f, v, b
      ensures b in Bits(filter', f, v) <==>
              || (b == d.id && Has(d, f, v))
              || (b in Bits(filter, f, v)
                  && !(b == d.id && f in IntFields(d) && existing.Some? && existing.value.ints[f] == v))
    {
      ReindexedBits(filter, existing, d, f, v, b);
    }
    if d.id in scalar && !(IntFields(scalar[d.id]).Keys <= IntFields(d).Keys) {
      var f :| f in IntFields(scalar[d.id]) && f !in IntFields(d);
      var v := scalar[d.id].ints[f];
      assert Has(scalar[d.id], f, v) && d.id in Bits(filter, f, v);
      assert d.id in Bits(filter', f, v) && !Has(d, f, v);
      var scalar' := scalar[d.id := d];
      assert scalar'[d.id] == d;
      assert !(d.id in Bits(filter', f, v) <==> d.id in scalar' && Has(scalar'[d.id], f, v));
    }
  }

  /** A stored document with indexed fields and an id beyond 32 bits is in no bitmap. */
  lemma WideIdsDisagree(scalar: map<nat, Doc>, filter: Filter, id: nat)
    requires BitsFit(filter) && id in scalar && !Narrow(id) && IntFields(scalar[id]).Keys != {}
    ensures !Agrees(scalar, filter)
  {
    var f :| f in IntFields(scalar[id]).Keys;
    var v := IntFields(scalar[id])[f];
    assert Has(scalar[id], f, v) && id !in Bits(filter, f, v);
  }

  /**
   * An upsert keeps the filter in step with the documents exactly when it drops no indexed field and its id fits
   * a bitmap, unless there is nothing to index.
   */
  lemma UpsertKeepsAgreement(scalar: map<nat, Doc>, filter: Filter, d: Doc)
    requires Agrees(scalar, filter) && BitsFit(filter)
    requires !Aborts(At(scalar, d.id), d)
    ensures Agrees(scalar[d.id := d], Reindexed(filter, At(scalar, d.id), d)) <==>
            Indexable(d) && (d.id in scalar ==> IntFields(scalar[d.id]).Keys <= IntFields(d).Keys)
  {
    if Indexable(d) {
      NarrowUpsert(scalar, filter, d);
    } else {
      UpsertKeepsBitsFit(filter, At(scalar, d.id), d);
      assert scalar[d.id := d][d.id] == d;
      WideIdsDisagree(scalar[d.id := d], Reindexed(filter, At(scalar, d.id), d), d.id);
    }
  }

  /** All documents written under one id carry the same indexed fields. */
  ghost predicate SchemaStable(docs: seq<Doc>) {
    forall i, j :: 0 <= i < |docs| && 0 <= j < |docs| && docs[i].id == docs[j].id
                   ==> IntFields(docs[i]).Keys == IntFields(docs[j]).Keys
  }

  datatype Live = Live(scalar: map<nat, Doc>, filter: Filter)

  /** The stored documents and the filter after a sequence of upserts on an empty database; `None` if one aborts. */
  function AfterUpserts(docs: seq<Doc>): Option<Live> {
    if docs == [] then Some(Live(map[], map[])) else
      var d := docs[|docs| - 1];
      match AfterUpserts(docs[..|docs| - 1])
      case None => None
      case Some(s) =>
        if Aborts(At(s.scalar, d.id), d) then None
        else Some(Live(s.scalar[d.id := d], Reindexed(s.filter, At(s.scalar, d.id), d)))
  }

  /** Documents that keep their fields never abort, and every one of them is stored until the next of its id. */
  lemma {:induction false} AfterUpsertsContents(docs: seq<Doc>)
    requires SchemaStable(docs)
    ensures AfterUpserts(docs).Some?
    ensures var s := AfterUpserts(docs).value;
            && BitsFit(s.filter)
            && (forall id :: id in s.scalar ==> s.scalar[id] in docs && s.scalar[id].id == id)
            && (forall d :: d in docs ==> d.id in s.scalar)
  {
    if docs != [] {
      var d, front := docs[|docs| - 1], docs[..|docs| - 1];
      AfterUpsertsContents(front);
      var s := AfterUpserts(front).value;
      if d.id in s.scalar {
        var i :| 0 <= i < |front| && front[i] == s.scalar[d.id];
        assert docs[i] == s.scalar[d.id];
      }
      UpsertKeepsBitsFit(s.filter, At(s.scalar, d.id), d);
      assert docs == front + [d];
    }
  }

  lemma {:induction false} NarrowAgreement(docs: seq<Doc>)
    requires SchemaStable(docs)
    requires forall d :: d in docs ==> Indexable(d)
    ensures AfterUpserts(docs).Some? && Agrees(AfterUpserts(docs).value.scalar, AfterUpserts(docs).value.filter)
  {
    AfterUpsertsContents(docs);
    if docs != [] {
      var d, front := docs[|docs| - 1], docs[..|docs| - 1];
      assert docs == front + [d];
      NarrowAgreement(front);
      AfterUpsertsContents(front);
      var s := AfterUpserts(front).value;
      if d.id in s.scalar {
        var i :| 0 <= i < |front| && front[i] == s.scalar[d.id];
        assert docs[i] == s.scalar[d.id];
      }
      NarrowUpsert(s.scalar, s.filter, d);
    }
  }

  /**
   * After schema-stable upserts on an empty database the bitmaps agree with the stored documents exactly when
   * every document that has something to index has an id that fits a bitmap.
   */
  lemma LiveAgreement(docs: seq<Doc>)
    requires SchemaStable(docs)
    ensures AfterUpserts(docs).Some?
    ensures Agrees(AfterUpserts(docs).value.scalar, AfterUpserts(docs).value.filter) <==>
            forall d :: d in docs ==> Indexable(d)
  {
    AfterUpsertsContents(docs);
    if forall d :: d in docs ==> Indexable(d) {
      NarrowAgreement(docs);
    } else {
      var d :| d in docs && !Indexable(d);
      StoredFields(docs, d);
      WideIdsDisagree(AfterUpserts(docs).value.scalar, AfterUpserts(docs).value.filter, d.id);
    }
  }

  lemma StoredFields(docs: seq<Doc>, d: Doc)
    requires SchemaStable(docs) && d in docs
    ensures AfterUpserts(docs).Some? && d.id in AfterUpserts(docs).value.scalar
    ensures IntFields(AfterUpserts(docs).value.scalar[d.id]).Keys == IntFields(d).Keys
  {
    AfterUpsertsContents(docs);
    var last := AfterUpserts(docs).value.scalar[d.id];
    var i :| 0 <= i < |docs| && docs[i] == d;
    var j :| 0 <= j < |docs| && docs[j] == last;
    assert docs[i].id == docs[j].id;
  }

  lemma {:induction false} LastIsStored(docs: seq<Doc>, i: nat)
    requires i < |docs| && AfterUpserts(docs).Some?
    requires forall j :: i < j < |docs| ==> docs[j].id != docs[i].id
    ensures docs[i].id in AfterUpserts(docs).value.scalar && AfterUpserts(docs).value.scalar[docs[i].id] == docs[i]
    decreases |docs|
  {
    if i < |docs| - 1 {
      LastIsStored(docs[..|docs| - 1], i);
    }
  }

  /**
   * In numbers: after such upserts the id of a document is in the bitmap of a value of a field exactly when the
   * last document of that id has this value there, the field is not the id, and the value fits in 32 bits.
   */
  lemma LiveBits(docs: seq<Doc>, i: nat, f: string, v: int)
    requires SchemaStable(docs) && forall d :: d in docs ==> Indexable(d)
    requires i < |docs| && forall j :: i < j < |docs| ==> docs[j].id != docs[i].id
    ensures AfterUpserts(docs).Some?
    ensures docs[i].id in Bits(AfterUpserts(docs).value.filter, f, v) <==>
            f != "id" && f in docs[i].ints && docs[i].ints[f] == v && -2147483648 <= v <= 2147483647
  {
    LiveAgreement(docs);
    LastIsStored(docs, i);
    var s := AfterUpserts(docs).value;
    assert docs[i].id in Bits(s.filter, f, v) <==> docs[i].id in s.scalar && Has(s.scalar[docs[i].id], f, v);
  }

  /** So no id is ever in the bitmaps of two values of one field. */
  lemma LiveBitmapsAreDisjoint(docs: seq<Doc>, f: string, v: int, w: int)
    requires SchemaStable(docs)
    requires forall d :: d in docs ==> Indexable(d)
    requires v != w
    ensures AfterUpserts(docs).Some?
    ensures Bits(AfterUpserts(docs).value.filter, f, v) !! Bits(AfterUpserts(docs).value.filter, f, w)
  {
    LiveAgreement(docs);
    var s := AfterUpserts(docs).value;
    assert forall id :: id in Bits(s.filter, f, v) ==> Has(s.scalar[id], f, v);
    assert forall id :: id in Bits(s.filter, f, w) ==> Has(s.scalar[id], f, w);
  }

  // ---------------------------------------------------------------------------------------------
  // The shape of every filter the server builds
  // ---------------------------------------------------------------------------------------------

  ghost predicate NoEmptyField(filter: Filter) {
    forall f :: f in filter ==> exists v :: v in filter[f]
  }

  /** Every field has a bitmap, and every value and every bit fits in 32 bits. */
  ghost predicate Shaped(filter: Filter) {
    NoEmptyField(filter) && BitsFit(filter) && forall f, v :: f in filter && v in filter[f] ==> IsInt(v)
  }

  lemma UpsertKeepsShape(filter: Filter, existing: Option<Doc>, d: Doc)
    requires Shaped(filter) && !Aborts(existing, d)
    ensures Shaped(Reindexed(filter, existing, d))
  {
    FieldsKeepShape(filter, existing, d, IntFields(d).Keys);
  }

  lemma FieldsKeepShape(filter: Filter, existing: Option<Doc>, d: Doc, fields: set<string>)
    requires fields <= IntFields(d).Keys && (existing.Some? ==> fields <= existing.value.ints.Keys)
    requires Shaped(filter)
    ensures Shaped(ReindexedOn(filter, existing, d, fields))
  {
    var filter' := ReindexedOn(filter, existing, d, fields);
    forall f, v, b | b in Bits(filter', f, v) ensures Narrow(b) {
      ReindexedOnBits(filter, existing, d, fields, f, v, b);
    }
    forall f | f in filter' ensures exists v :: v in filter'[f] {
      if f in fields {
        assert d.ints[f] in Moved(ValuesOf(filter, f), OldValue(existing, f), d.ints[f], d.id);
      } else {
        var v :| v in filter[f];
        assert v in filter'[f];
      }
    }
  }

  lemma ReindexedField(filter: Filter, existing: Option<Doc>, d: Doc, fields: set<string>, f: string)
    requires fields <= IntFields(d).Keys && (existing.Some? ==> fields <= existing.value.ints.Keys)
    ensures var filter' := ReindexedOn(filter, existing, d, fields);
            && (f in filter' <==> f in filter || f in fields)
            && ValuesOf(filter', f) == if f in fields then Moved(ValuesOf(filter, f), OldValue(existing, f), d.ints[f], d.id)
                                       else ValuesOf(filter, f)
  {
  }

  lemma ReindexFieldInParts(filter: Filter, existing: Option<Doc>, d: Doc, some: set<string>, others: set<string>, f: string)
    requires some + others <= IntFields(d).Keys && some !! others
    requires existing.Some? ==> some + others <= existing.value.ints.Keys
    ensures var parts := ReindexedOn(ReindexedOn(filter, existing, d, some), existing, d, others);
            var whole := ReindexedOn(filter, existing, d, some + others);
            (f in parts <==> f in whole) && ValuesOf(parts, f) == ValuesOf(whole, f)
  {
    ReindexedField(filter, existing, d, some, f);
    ReindexedField(ReindexedOn(filter, existing, d, some), existing, d, others, f);
    ReindexedField(filter, existing, d, some + others, f);
  }

  /** Handling some fields and then others is handling them all. */
  lemma ReindexInParts(filter: Filter, existing: Option<Doc>, d: Doc, some: set<string>, others: set<string>)
    requires some + others <= IntFields(d).Keys && some !! others
    requires existing.Some? ==> some + others <= existing.value.ints.Keys
    ensures ReindexedOn(ReindexedOn(filter, existing, d, some), existing, d, others)
         == ReindexedOn(filter, existing, d, some + others)
  {
    var parts, whole := ReindexedOn(ReindexedOn(filter, existing, d, some), existing, d, others),
                        ReindexedOn(filter, existing, d, some + others);
    forall f ensures (f in parts <==> f in whole) && ValuesOf(parts, f) == ValuesOf(whole, f) {
      ReindexFieldInParts(filter, existing, d, some, others, f);
    }
    SameLookups(parts, whole);
  }

  lemma SameLookups(a: Filter, b: Filter)
    requires forall f :: (f in a <==> f in b) && ValuesOf(a, f) == ValuesOf(b, f)
    ensures a == b
  {
    forall f | f in a ensures a[f] == b[f] {
      assert ValuesOf(a, f) == ValuesOf(b, f);
    }
  }

  lemma AfterOneMore(docs: seq<Doc>, d: Doc)
    requires AfterUpserts(docs).Some?
    requires var s := AfterUpserts(docs).value; !Aborts(At(s.scalar, d.id), d)
    ensures (var s := AfterUpserts(docs).value;
             AfterUpserts(docs + [d])
             == Some(Live(s.scalar[d.id := d], Reindexed(s.filter, At(s.scalar, d.id), d))))
  {
    assert (docs + [d])[..|docs|] == docs;
  }

  const NARROW_DOC := Doc(7, FLAT, [], map["f" := 1])
  const WIDE_DOC := Doc(0x1_0000_0007, FLAT, [], map["f" := 1])
  const WIDE_DOC_MOVED := Doc(0x1_0000_0007, FLAT, [], map["f" := 2])

  /** Ids that agree in their low 32 bits share a bit: moving one of them moves the other as well. */
  lemma WideIdsCollide()
    ensures var run := AfterUpserts([NARROW_DOC, WIDE_DOC, WIDE_DOC_MOVED]);
            && run.Some?
            && At(run.value.scalar, 7) == Some(NARROW_DOC) && Has(NARROW_DOC, "f", 1)
            && 7 !in Bits(run.value.filter, "f", 1)
  {
    var a, b0, b1 := NARROW_DOC, WIDE_DOC, WIDE_DOC_MOVED;
    assert Has(a, "f", 1) && Has(b0, "f", 1) && Has(b1, "f", 2);
    assert [] + [a] == [a] && [a] + [b0] == [a, b0] && [a, b0] + [b1] == [a, b0, b1];
    AfterOneMore([], a);
    AfterOneMore([a], b0);
    var s2 := AfterUpserts([a, b0]).value;
    assert At(s2.scalar, b1.id) == Some(b0) && At(s2.scalar, 7) == Some(a);
    AfterOneMore([a, b0], b1);
    ReindexedBits(s2.filter, Some(b0), b1, "f", 1, 7);
  }
}
