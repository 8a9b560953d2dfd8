/** The files a process leaves behind, byte by byte where their format matters, and what the next one makes of them. */
module SavedFiles {
  import opened Documents
  import opened Durability
  import opened TextFormats
  import opened FilterDump
  import opened TextReplay

  /** The two libraries that read what others have written: CRoaring and rapidjson. */
  datatype Libraries = Libraries(codec: BitmapCodec, parse: Parser)

  /** The index files of Faiss and hnswlib stand for their contents; the filter and the log are text. */
  datatype Files = Files(
    scalar: map<nat, Doc>,
    wal: string,
    flat: FlatIndex,
    hnsw: map<nat, Vector>,
    filter: string,
    maxLogID: nat)

  /** `reloadDatabase`: loads the three indexes, then reads and applies the log. */
  function ReloadFiles(f: Files, l: Libraries): Reloaded {
    match LoadFilter(f.filter, l.codec)
    case None => Reloaded(None, FIRST_ID)
    case Some(filter) =>
      ReplayText(f.wal, "", f.maxLogID, FIRST_ID, l.parse, Store(f.scalar, Indexes(f.flat, f.hnsw, filter)))
  }
}
