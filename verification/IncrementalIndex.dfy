/** What a full indexing run must achieve: which files it re-indexes, and that the outcome is the one of indexing from
    scratch (internal/indexer/scanner.go, lines 68-190). */
module IncrementalIndex {
  import opened StoreModel
  import opened IndexerModel

  /** A file found by the scan: what indexing it will read, or that indexing it fails, with an error or by a
      panic. The hash is empty when it could not be computed, since GetHash's error is dropped (line 98). */
  datatype FileState = Readable(file: File) | Failing(hash: string, panics: bool)

  type Disk = map<string, FileState>

  function CurrentHash(f: FileState): string {
    match f
    case Readable(file) => file.hash
    case Failing(hash, _) => hash
  }

  function HashesOf(idx: Indexed): map<string, string> {
    map p | p in idx :: idx[p].hash
  }

  predicate IsChanged(hashes: map<string, string>, disk: Disk, path: string)
    requires path in disk
  {
    path !in hashes || hashes[path] != CurrentHash(disk[path])
  }

  /** What the store holds after a run on `disk`, file by file: a file that cannot be indexed, or whose hash has not
      changed, keeps what it had; any other file is as it is on disk; a file that is gone has nothing. */
  function After(idx: Indexed, disk: Disk): Indexed {
    map p | p in disk && (p in idx || disk[p].Readable?) ::
      if disk[p].Readable? && IsChanged(HashesOf(idx), disk, p) then disk[p].file else idx[p]
  }

  /** The readable files among `paths`, as they are on disk. */
  function FilesOf(disk: Disk, paths: set<string>): Indexed {
    map p | p in disk && p in paths && disk[p].Readable? :: disk[p].file
  }

  /** `idx` with the files of `done` re-indexed. */
  function Reindexed(idx: Indexed, disk: Disk, done: set<string>): Indexed {
    idx + FilesOf(disk, done)
  }

  lemma ReindexedNone(idx: Indexed, disk: Disk)
    ensures Reindexed(idx, disk, {}) == idx
  {}

  lemma ReindexedOne(idx: Indexed, disk: Disk, done: set<string>, p: string)
    requires p in disk
    ensures Reindexed(idx, disk, done + {p}) ==
            if disk[p].Readable? then Reindexed(idx, disk, done)[p := disk[p].file] else Reindexed(idx, disk, done)
  {}

  /** Re-indexing exactly the changed files of what is left after the cleanup gives the outcome of the run. */
  lemma ReindexedChanged(idx: Indexed, disk: Disk, changed: set<string>)
    requires forall p :: p in changed <==> p in disk && IsChanged(HashesOf(idx), disk, p)
    ensures Reindexed(Kept(idx, disk), disk, changed) == After(idx, disk)
  {}

  /** What the cleanup of stale files keeps. */
  function Kept(idx: Indexed, disk: Disk): Indexed {
    map p | p in idx && p in disk :: idx[p]
  }

  // ---------- equal to a rebuild ----------

  /** A document without its modification time. */
  function Timeless(doc: Doc): Doc {
    Doc(doc.content, doc.meta - {"updated_at"})
  }

  function TimelessRecords(col: Collection): Collection {
    map id | id in col :: Timeless(col[id])
  }

  /** The records of a file without their modification times. */
  function Stored(cfg: Config, path: string, f: File): seq<Record> {
    var rs := RecordsOf(cfg, path, f);
    seq(|rs|, k requires 0 <= k < |rs| => Record(rs[k].id, Timeless(rs[k].doc)))
  }

  /** `a` and `b` have the same files, and the same is stored for each. */
  ghost predicate SameStored(cfg: Config, a: Indexed, b: Indexed) {
    a.Keys == b.Keys && forall p :: p in a ==> Stored(cfg, p, a[p]) == Stored(cfg, p, b[p])
  }

  /** What the store has of a file that is still on disk is what indexing it now would put there: the file can be
      indexed, and if its hash is the old one, then so are its stored records. */
  ghost predicate UpToDate(cfg: Config, f: File, now: FileState, path: string) {
    now.Readable? && (f.hash == now.file.hash ==> Stored(cfg, path, f) == Stored(cfg, path, now.file))
  }

  lemma AfterSameStoredIff(cfg: Config, idx: Indexed, disk: Disk)
    ensures SameStored(cfg, After(idx, disk), After(map[], disk)) <==>
            forall p :: p in idx && p in disk ==> UpToDate(cfg, idx[p], disk[p], p)
  {
    var a, b := After(idx, disk), After(map[], disk);
    if SameStored(cfg, a, b) {
      forall p | p in idx && p in disk ensures UpToDate(cfg, idx[p], disk[p], p) {
        assert p in a;
      }
    }
    if forall p :: p in idx && p in disk ==> UpToDate(cfg, idx[p], disk[p], p) {
      forall p ensures p in a <==> p in b {}
      forall p | p in a ensures Stored(cfg, p, a[p]) == Stored(cfg, p, b[p]) {
        assert p in HashesOf(idx) <==> p in idx;
      }
    }
  }

  lemma StoredOwned(cfg: Config, path: string, f: File, r: Record)
    requires r in Stored(cfg, path, f)
    ensures Owns(cfg.root, path, r.id)
    ensures exists q :: q in RecordsOf(cfg, path, f) && r == Record(q.id, Timeless(q.doc))
  {
    var k :| 0 <= k < |Stored(cfg, path, f)| && Stored(cfg, path, f)[k] == r;
    var q := RecordsOf(cfg, path, f)[k];
    assert q in RecordsOf(cfg, path, f);
    RecordFacts(cfg, path, f, q);
  }

  /** A store holds a record of a file, up to its time, exactly if it is among the file's stored ones. */
  lemma HoldsIff(cfg: Config, col: Collection, idx: Indexed, path: string, r: Record)
    requires ProjectState(cfg, col, idx) && Owns(cfg.root, path, r.id)
    ensures var kept := TimelessRecords(FileRecords(cfg.root, col));
            (r.id in kept && kept[r.id] == r.doc) <==> path in idx && r in Stored(cfg, path, idx[path])
  {
    var kept := TimelessRecords(FileRecords(cfg.root, col));
    if r.id in kept && kept[r.id] == r.doc {
      var q := Record(r.id, col[r.id]);
      var p :| p in idx && q in RecordsOf(cfg, p, idx[p]);
      RecordFacts(cfg, p, idx[p], q);
      OwnerUnique(cfg.root, p, path, r.id);
      var k :| 0 <= k < |RecordsOf(cfg, p, idx[p])| && RecordsOf(cfg, p, idx[p])[k] == q;
      assert Stored(cfg, p, idx[p])[k] == r;
    }
    if path in idx && r in Stored(cfg, path, idx[path]) {
      StoredOwned(cfg, path, idx[path], r);
      var q :| q in RecordsOf(cfg, path, idx[path]) && r == Record(q.id, Timeless(q.doc));
      RecordFacts(cfg, path, idx[path], q);
    }
  }

  /** The same file records, up to modification times, mean the same stored files. */
  lemma SameRecordsIff(cfg: Config, a: Indexed, b: Indexed, col: Collection, col': Collection)
    requires ProjectState(cfg, col, a) && ProjectState(cfg, col', b)
    ensures TimelessRecords(FileRecords(cfg.root, col)) == TimelessRecords(FileRecords(cfg.root, col')) <==>
            SameStored(cfg, a, b)
  {
    var kept, kept' := TimelessRecords(FileRecords(cfg.root, col)), TimelessRecords(FileRecords(cfg.root, col'));
    if kept == kept' {
      forall p, r | p in a && r in Stored(cfg, p, a[p]) ensures p in b && r in Stored(cfg, p, b[p]) {
        StoredOwned(cfg, p, a[p], r);
        HoldsIff(cfg, col, a, p, r);
        HoldsIff(cfg, col', b, p, r);
      }
      forall p, r | p in b && r in Stored(cfg, p, b[p]) ensures p in a && r in Stored(cfg, p, a[p]) {
        StoredOwned(cfg, p, b[p], r);
        HoldsIff(cfg, col, a, p, r);
        HoldsIff(cfg, col', b, p, r);
      }
      SameElements(cfg, a, b);
    }
    if SameStored(cfg, a, b) {
      StoredIncluded(cfg, a, b, col, col');
      StoredIncluded(cfg, b, a, col', col);
      MapsEqual(kept, kept');
    }
  }

  lemma StoredIncluded(cfg: Config, a: Indexed, b: Indexed, col: Collection, col': Collection)
    requires ProjectState(cfg, col, a) && ProjectState(cfg, col', b) && SameStored(cfg, a, b)
    ensures var kept, kept' := TimelessRecords(FileRecords(cfg.root, col)),
            TimelessRecords(FileRecords(cfg.root, col'));
            forall id :: id in kept ==> id in kept' && kept[id] == kept'[id]
  {
    var kept, kept' := TimelessRecords(FileRecords(cfg.root, col)), TimelessRecords(FileRecords(cfg.root, col'));
    forall id | id in kept ensures id in kept' && kept[id] == kept'[id] {
      var p :| p in a && Record(id, col[id]) in RecordsOf(cfg, p, a[p]);
      RecordFacts(cfg, p, a[p], Record(id, col[id]));
      HoldsIff(cfg, col, a, p, Record(id, kept[id]));
      HoldsIff(cfg, col', b, p, Record(id, kept[id]));
    }
  }

  lemma MapsEqual(a: Collection, b: Collection)
    requires forall id :: id in a ==> id in b && a[id] == b[id]
    requires forall id :: id in b ==> id in a && b[id] == a[id]
    ensures a == b
  {}

  lemma StoredIds(cfg: Config, path: string, f: File, k: nat)
    requires k < |Stored(cfg, path, f)|
    ensures Stored(cfg, path, f)[k].id ==
            if k < |Stored(cfg, path, f)| - 1 then ChunkId(cfg.root, path, k) else MetaId(cfg.root, path)
  {}

  lemma MetaStored(cfg: Config, path: string, f: File)
    ensures exists r :: r in Stored(cfg, path, f)
  {
    assert Stored(cfg, path, f)[0] in Stored(cfg, path, f);
  }

  /** IDs say where a record stands in its file. */
  lemma StoredPosition(cfg: Config, path: string, f: File, g: File, k: nat)
    requires k < |Stored(cfg, path, f)| && Stored(cfg, path, f)[k] in Stored(cfg, path, g)
    ensures if k < |Stored(cfg, path, f)| - 1
            then k < |Stored(cfg, path, g)| - 1 && Stored(cfg, path, g)[k] == Stored(cfg, path, f)[k]
            else Stored(cfg, path, g)[|Stored(cfg, path, g)|-1] == Stored(cfg, path, f)[k]
  {
    var j :| 0 <= j < |Stored(cfg, path, g)| && Stored(cfg, path, g)[j] == Stored(cfg, path, f)[k];
    StoredIds(cfg, path, f, k);
    StoredIds(cfg, path, g, j);
    if k < |Stored(cfg, path, f)| - 1 {
      ChunkIdIsNoMetaId(cfg.root, path, k, path);
      ChunkIdInjective(cfg.root, path, k, path, j);
    } else if j < |Stored(cfg, path, g)| - 1 {
      ChunkIdIsNoMetaId(cfg.root, path, j, path);
      assert false;
    }
  }

  lemma SameElementsSameList(cfg: Config, path: string, f: File, g: File)
    requires forall r :: r in Stored(cfg, path, f) <==> r in Stored(cfg, path, g)
    ensures Stored(cfg, path, f) == Stored(cfg, path, g)
  {
    var a, b := Stored(cfg, path, f), Stored(cfg, path, g);
    NoLonger(cfg, path, f, g);
    NoLonger(cfg, path, g, f);
    forall k | 0 <= k < |a| ensures if k < |a| - 1 then k < |b| - 1 && b[k] == a[k] else b[|b|-1] == a[k] {
      assert a[k] in a;
      StoredPosition(cfg, path, f, g, k);
    }
  }

  lemma NoLonger(cfg: Config, path: string, f: File, g: File)
    requires forall r :: r in Stored(cfg, path, f) ==> r in Stored(cfg, path, g)
    ensures |Stored(cfg, path, f)| <= |Stored(cfg, path, g)|
  {
    var a := Stored(cfg, path, f);
    if |a| > 1 {
      assert a[|a|-2] in a;
      StoredPosition(cfg, path, f, g, |a| - 2);
    }
  }

  lemma SameElements(cfg: Config, a: Indexed, b: Indexed)
    requires forall p, r :: p in a && r in Stored(cfg, p, a[p]) ==> p in b && r in Stored(cfg, p, b[p])
    requires forall p, r :: p in b && r in Stored(cfg, p, b[p]) ==> p in a && r in Stored(cfg, p, a[p])
    ensures SameStored(cfg, a, b)
  {
    forall p ensures p in a <==> p in b {
      if p in a {
        MetaStored(cfg, p, a[p]);
      }
      if p in b {
        MetaStored(cfg, p, b[p]);
      }
    }
    forall p | p in a ensures Stored(cfg, p, a[p]) == Stored(cfg, p, b[p]) {
      SameElementsSameList(cfg, p, a[p], b[p]);
    }
  }

  /** Indexing incrementally and indexing from scratch leave the same file records, up to modification times, exactly
      if every indexed file that is still on disk is up to date or will be indexed anew. */
  lemma IncrementalEqualsRebuildIff(cfg: Config, idx: Indexed, disk: Disk, col: Collection, scratch: Collection)
    requires ProjectState(cfg, col, After(idx, disk))
    requires ProjectState(cfg, scratch, After(map[], disk))
    ensures TimelessRecords(FileRecords(cfg.root, col)) == TimelessRecords(FileRecords(cfg.root, scratch)) <==>
            forall p :: p in idx && p in disk ==> UpToDate(cfg, idx[p], disk[p], p)
  {
    SameRecordsIff(cfg, After(idx, disk), After(map[], disk), col, scratch);
    AfterSameStoredIff(cfg, idx, disk);
  }

  ghost predicate AllReadable(disk: Disk) {
    forall p :: p in disk ==> disk[p].Readable?
  }

  /** Equal hashes mean equal contents, for the old and the new content of each file. */
  ghost predicate HashesTell(idx: Indexed, disk: Disk) {
    forall p :: p in idx && p in disk && disk[p].Readable? && idx[p].hash == disk[p].file.hash ==>
      idx[p].content == disk[p].file.content
  }

  /** Embeddings came back for all chunks of the file. */
  predicate Embedded(cfg: Config, path: string, f: File) {
    |cfg.chunks(path, f.content)| <= f.embedded
  }

  ghost predicate AllEmbedded(cfg: Config, idx: Indexed, disk: Disk) {
    && (forall p :: p in idx ==> Embedded(cfg, p, idx[p]))
    && (forall p :: p in disk && disk[p].Readable? ==> Embedded(cfg, p, disk[p].file))
  }

  /** Of one content, the same is stored exactly if embeddings came back for the same number of chunks. */
  lemma SameStoredIff(cfg: Config, path: string, f: File, g: File)
    requires f.content == g.content && f.hash == g.hash
    ensures Stored(cfg, path, f) == Stored(cfg, path, g) <==>
            EmbeddedChunks(cfg, path, f) == EmbeddedChunks(cfg, path, g)
  {
    var a, b := RecordsOf(cfg, path, f), RecordsOf(cfg, path, g);
    assert |Stored(cfg, path, f)| == EmbeddedChunks(cfg, path, f) + 1;
    assert |Stored(cfg, path, g)| == EmbeddedChunks(cfg, path, g) + 1;
    if EmbeddedChunks(cfg, path, f) == EmbeddedChunks(cfg, path, g) {
      assert StoredChunks(cfg, path, f) == StoredChunks(cfg, path, g);
      forall k | 0 <= k < |a| ensures a[k].id == b[k].id && Timeless(a[k].doc) == Timeless(b[k].doc) {
        if k < |a| - 1 {
          ChunkTimeless(cfg, StoredChunks(cfg, path, f)[k], path, f, g);
        }
      }
    }
  }

  lemma ChunkTimeless(cfg: Config, chunk: Chunk, path: string, f: File, g: File)
    requires f.hash == g.hash
    ensures ChunkMeta(cfg, chunk, path, f) - {"updated_at"} == ChunkMeta(cfg, chunk, path, g) - {"updated_at"}
  {}

  /** What the run goes by when hashes tell contents apart: the file can be read, and if its hash is unchanged,
      embeddings came back for as many of its chunks as they would now. */
  ghost predicate EmbeddedAlike(cfg: Config, f: File, now: FileState, path: string) {
    now.Readable? && (f.hash == now.file.hash ==> EmbeddedChunks(cfg, path, f) == EmbeddedChunks(cfg, path, now.file))
  }

  /** Then that is the exact condition, for every indexed file that is still on disk. */
  lemma RebuildIffEmbeddedAlike(cfg: Config, idx: Indexed, disk: Disk, col: Collection, scratch: Collection)
    requires HashesTell(idx, disk)
    requires ProjectState(cfg, col, After(idx, disk))
    requires ProjectState(cfg, scratch, After(map[], disk))
    ensures TimelessRecords(FileRecords(cfg.root, col)) == TimelessRecords(FileRecords(cfg.root, scratch)) <==>
            forall p :: p in idx && p in disk ==> EmbeddedAlike(cfg, idx[p], disk[p], p)
  {
    IncrementalEqualsRebuildIff(cfg, idx, disk, col, scratch);
    forall p | p in idx && p in disk
      ensures UpToDate(cfg, idx[p], disk[p], p) <==> EmbeddedAlike(cfg, idx[p], disk[p], p)
    {
      if disk[p].Readable? && idx[p].hash == disk[p].file.hash {
        SameStoredIff(cfg, p, idx[p], disk[p].file);
      }
    }
  }

  /** So the two agree whenever all files can be read, all embeddings succeed and hashes tell contents apart. */
  lemma IncrementalEqualsRebuild(cfg: Config, idx: Indexed, disk: Disk, col: Collection, scratch: Collection)
    requires AllReadable(disk) && HashesTell(idx, disk) && AllEmbedded(cfg, idx, disk)
    requires ProjectState(cfg, col, After(idx, disk))
    requires ProjectState(cfg, scratch, After(map[], disk))
    ensures TimelessRecords(FileRecords(cfg.root, col)) == TimelessRecords(FileRecords(cfg.root, scratch))
  {
    RebuildIffEmbeddedAlike(cfg, idx, disk, col, scratch);
    forall p | p in idx && p in disk ensures EmbeddedAlike(cfg, idx[p], disk[p], p) {
      assert Embedded(cfg, p, idx[p]) && Embedded(cfg, p, disk[p].file);
    }
  }

  /** A failed embedding is never made up for: the file's record says that its hash is indexed, so as long as the
      content stays the same every later run skips the file, and the store differs from a rebuilt one. */
  lemma FailedEmbeddingStays(cfg: Config, idx: Indexed, disk: Disk, path: string, col: Collection, scratch: Collection)
    requires path in idx && path in disk && disk[path].Readable?
    requires idx[path].content == disk[path].file.content && idx[path].hash == disk[path].file.hash
    requires !Embedded(cfg, path, idx[path]) && Embedded(cfg, path, disk[path].file)
    requires ProjectState(cfg, col, After(idx, disk)) && ProjectState(cfg, scratch, After(map[], disk))
    ensures After(idx, disk)[path] == idx[path]
    ensures TimelessRecords(FileRecords(cfg.root, col)) != TimelessRecords(FileRecords(cfg.root, scratch))
  {
    IncrementalEqualsRebuildIff(cfg, idx, disk, col, scratch);
    assert |Stored(cfg, path, idx[path])| < |Stored(cfg, path, disk[path].file)|;
    assert !UpToDate(cfg, idx[path], disk[path], path);
  }

  /** Right after a run nothing that could be read is changed, and another run changes nothing. */
  lemma SecondRunIdle(idx: Indexed, disk: Disk)
    ensures forall p :: p in disk && disk[p].Readable? ==> !IsChanged(HashesOf(After(idx, disk)), disk, p)
    ensures After(After(idx, disk), disk) == After(idx, disk)
  {
    forall p | p in disk && disk[p].Readable? ensures !IsChanged(HashesOf(After(idx, disk)), disk, p) {
      assert p in After(idx, disk);
      assert p in HashesOf(idx) <==> p in idx;
    }
  }

  // ---------- steps of a run ----------

  lemma TouchesOnlySelf(root: string, a: Collection)
    ensures TouchesOnly(root, a, a)
  {}

  lemma TouchesOnlyTransitive(root: string, a: Collection, b: Collection, c: Collection)
    requires TouchesOnly(root, a, b) && TouchesOnly(root, b, c)
    ensures TouchesOnly(root, a, c)
  {}

  /** `id` is a file_meta record of the project. */
  predicate IsMeta(root: string, col: Collection, id: string) {
    id in col && Field(col[id].meta, "project_id") == root && Field(col[id].meta, "type") == "file_meta"
  }

  /** The hash mapping read back from the store is that of the files it was filled with. */
  lemma MappingIsHashes(cfg: Config, col: Collection, idx: Indexed, mapping: map<string, string>)
    requires ProjectState(cfg, col, idx)
    requires forall path :: path in mapping ==> exists id ::
               IsMeta(cfg.root, col, id) && Field(col[id].meta, "path") == path &&
                   Field(col[id].meta, "hash") == mapping[path]
    requires forall id :: IsMeta(cfg.root, col, id) && "path" in col[id].meta ==> (col[id].meta["path"] in mapping)
    ensures mapping == HashesOf(idx)
  {
    forall path | path in mapping ensures path in idx && mapping[path] == idx[path].hash {
      var id :| IsMeta(cfg.root, col, id) && Field(col[id].meta, "path") == path &&
          Field(col[id].meta, "hash") == mapping[path];
      var p :| p in idx && Record(id, col[id]) in RecordsOf(cfg, p, idx[p]);
      RecordFacts(cfg, p, idx[p], Record(id, col[id]));
    }
    forall path | path in idx ensures path in mapping {
      IndexedHasMeta(cfg, col, idx, path);
    }
  }

  lemma IndexedHasMeta(cfg: Config, col: Collection, idx: Indexed, path: string)
    requires RecordsPresent(cfg, col, idx) && path in idx
    ensures var id := MetaId(cfg.root, path);
            IsMeta(cfg.root, col, id) && "path" in col[id].meta && col[id].meta["path"] == path
  {
    var r := MetaRecord(cfg, path, idx[path]);
    MetaRecordIn(cfg, path, idx[path]);
    RecordFacts(cfg, path, idx[path], r);
  }

  /** SetStatus in the middle of a run. */
  lemma StatusStep(tok: Tokenizer, cfg: Config, s: State, idx: Indexed, status: string, s': State)
    requires ProjectState(cfg, s.col, idx) && Coherent(tok, s)
    requires Step(tok, s, OpSetStatus(cfg.root, status), s')
    ensures ProjectState(cfg, s'.col, idx) && Coherent(tok, s') && TouchesOnly(cfg.root, s.col, s'.col)
  {
    var ids := Matching(s.col, StatusFilter(cfg.root));
    var mid := Deleted(s, ids);
    var r := StatusRecord(cfg.root, status);
    StatusDeleted(cfg, s.col, idx);
    IndexOfRemove(tok, s.col, ids);
    SafeBatchKeepsCoherence(tok, mid, [r], s'.col);
    SingleAdded(mid.col, r, s'.col);
    StatusFilterMeaning(r.doc, cfg.root);
    StatusWritten(cfg, mid.col, idx, r.doc);
    StatusTouches(cfg.root, s.col, r.doc);
  }

  lemma StatusTouches(root: string, col: Collection, doc: Doc)
    requires StatusReserved(root, col) && MatchesFilter(doc, StatusFilter(root))
    ensures TouchesOnly(root, col, (col - Matching(col, StatusFilter(root)))[StatusId(root) := doc])
  {
    var col' := (col - Matching(col, StatusFilter(root)))[StatusId(root) := doc];
    StatusFilterMeaning(doc, root);
    forall id | id in col
      ensures MatchesFilter(col[id], StatusFilter(root)) ==> Field(col[id].meta, "project_id") == root
    {
      StatusFilterMeaning(col[id], root);
    }
    assert Foreign(root, col') == Foreign(root, col);
  }

  /** DeleteByPath in the middle of a run. */
  lemma DeleteStep(tok: Tokenizer, cfg: Config, s: State, idx: Indexed, path: string)
    requires ProjectState(cfg, s.col, idx) && Coherent(tok, s)
    ensures var s' := Deleted(s, Matching(s.col, PathFilter(path, cfg.root)));
            ProjectState(cfg, s'.col, idx - {path}) && Coherent(tok, s') && TouchesOnly(cfg.root, s.col, s'.col)
  {
    var ids := Matching(s.col, PathFilter(path, cfg.root));
    PathDeleted(cfg, s.col, idx, path);
    IndexOfRemove(tok, s.col, ids);
    forall id | id in ids ensures Field(s.col[id].meta, "project_id") == cfg.root {
    }
    ForeignKeptByDelete(cfg.root, s.col, ids);
  }

  /** Insert of a batch of whole files none of which is in the store. */
  lemma InsertStep(tok: Tokenizer, cfg: Config, s: State, idx: Indexed, pending: Indexed, batch: seq<Record>, s': State)
    requires ProjectState(cfg, s.col, idx) && Coherent(tok, s)
    requires IsBatch(cfg, pending, batch) && idx.Keys !! pending.Keys && Inserted(tok, s, batch, s')
    ensures ProjectState(cfg, s'.col, idx + pending) && Coherent(tok, s') && TouchesOnly(cfg.root, s.col, s'.col)
  {
    BatchIsNew(cfg, s.col, idx, pending, batch);
    SafeBatchKeepsCoherence(tok, s, batch, s'.col);
    BatchWritten(cfg, s.col, idx, pending, batch, s'.col);
    InsertTouches(cfg, s.col, pending, batch, s'.col);
  }

  lemma InsertTouches(cfg: Config, col: Collection, pending: Indexed, batch: seq<Record>, col': Collection)
    requires IsBatch(cfg, pending, batch) && AddedTo(col, batch, col') && forall r :: r in batch ==> r.id !in col
    ensures TouchesOnly(cfg.root, col, col')
  {
    forall r | r in batch ensures Field(r.doc.meta, "project_id") == cfg.root && IsFileId(cfg.root, r.id) {
      var p :| p in pending && r in RecordsOf(cfg, p, pending[p]);
      RecordFacts(cfg, p, pending[p], r);
      OwnedIsFileId(cfg.root, p, r.id);
    }
    ForeignKeptByInsert(cfg.root, col, batch, col');
    forall id | id in col' && !(id in col && col[id] == col'[id]) ensures IsFileId(cfg.root, id) {
      assert InBatch(batch, id);
      var i :| 0 <= i < |batch| && batch[i] == Record(id, col'[id]);
      assert batch[i] in batch;
    }
  }
}
