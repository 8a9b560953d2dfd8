/** The documents the server stores, as the storage layer sees them after JSON parsing, and a few shared helpers. */
module Documents {

  datatype Option<+T> = None | Some(value: T)

  /** Vectors are opaque to everything modelled here: they are stored, moved and compared for equality only. */
  type Vector = seq<real>

  datatype IndexType = FLAT | HNSW | UNKNOWN

  /** `ints` holds every integer member of the JSON object, by name. */
  datatype Doc = Doc(id: nat, indexType: IndexType, vector: Vector, ints: map<string, int>)

  /** rapidjson's `IsInt()`: the number fits in 32 bits. */
  predicate IsInt(v: int) {
    -0x8000_0000 <= v < 0x8000_0000
  }

  /** The members that `upsert` indexes: 32-bit integers other than the document id. */
  function IntFields(d: Doc): map<string, int> {
    map f | f in d.ints && f != "id" && IsInt(d.ints[f]) :: d.ints[f]
  }

  /** What a search by field is about, in numbers: the document carries the value in a field other than its id. */
  predicate Has(d: Doc, f: string, v: int) {
    f != "id" && f in d.ints && d.ints[f] == v && -2147483648 <= v <= 2147483647
  }

  function Min(a: nat, b: nat): nat { if a < b then a else b }

  function Max(a: nat, b: nat): nat { if a < b then b else a }

  function At<T>(m: map<nat, T>, id: nat): Option<T> {
    if id in m then Some(m[id]) else None
  }

  /** An element of the set a loop still has to visit. */
  method Pick<T(==)>(s: set<T>) returns (x: T)
    requires s != {}
    ensures x in s
  {
    x :| x in s;
  }
}
