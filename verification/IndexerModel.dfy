/** What indexing a project must leave in the store (internal/indexer/scanner.go): the records of the files, their
    IDs, and the state of a project inside a collection it shares with other projects. */
module IndexerModel {
  import Decimal
  import opened StoreModel

  /** A chunk as the chunker gives it: its text and its own metadata fields. */
  datatype Chunk = Chunk(content: string, fields: Meta)

  /** A file as it was read for indexing: its text, its hash (empty if hashing failed), its modification time, and
      for how many of its chunks embeddings came back. */
  datatype File = File(content: string, hash: string, updatedAt: string, embedded: nat)

  /** What a run depends on besides disk and store: the chunker and the category of a path. */
  datatype Config = Config(root: string, chunks: (string, string) -> seq<Chunk>, category: string -> string)

  // ---------- record IDs (lines 337-348) ----------

  function ChunkId(root: string, path: string, i: nat): string {
    "chunk:" + root + ":" + path + ":" + Decimal.Itoa(i)
  }

  function MetaId(root: string, path: string): string {
    "filemeta:" + root + ":" + path
  }

  function StatusId(root: string): string {
    "status:" + root
  }

  /** `id` is an ID this path's records can have. */
  ghost predicate Owns(root: string, path: string, id: string) {
    id == MetaId(root, path) || exists i: nat :: id == ChunkId(root, path, i)
  }

  /** `id` belongs to the files of this project. */
  predicate IsFileId(root: string, id: string) {
    "chunk:" + root + ":" <= id || "filemeta:" + root + ":" <= id
  }

  lemma CutAfter(prefix: string, s: string, t: string)
    requires prefix + s == prefix + t
    ensures s == t
  {
    assert (prefix + s)[|prefix|..] == s && (prefix + t)[|prefix|..] == t;
  }

  lemma ColonPosition(p: string, m: string)
    requires ':' !in m
    ensures (p + ":" + m)[|p|] == ':'
    ensures forall k :: |p| < k < |p + ":" + m| ==> (p + ":" + m)[k] != ':'
  {
    forall k | |p| < k < |p + ":" + m| ensures (p + ":" + m)[k] != ':' {
      assert (p + ":" + m)[k] == m[k-|p|-1];
    }
  }

  /** Digits cannot hide a colon, so the last colon of a chunk ID separates path and number, whatever the path is. */
  lemma LastColon(p: string, m: string, q: string, n: string)
    requires p + ":" + m == q + ":" + n
    requires ':' !in m && ':' !in n
    ensures p == q && m == n
  {
    var s := p + ":" + m;
    ColonPosition(p, m);
    ColonPosition(q, n);
    assert |p| == |q|;
    assert p == s[..|p|] && q == s[..|q|];
    CutAfter(p + ":", m, n);
  }

  lemma ChunkIdInjective(root: string, p: string, i: nat, q: string, j: nat)
    requires ChunkId(root, p, i) == ChunkId(root, q, j)
    ensures p == q && i == j
  {
    var pre := "chunk:" + root + ":";
    assert ChunkId(root, p, i) == pre + (p + ":" + Decimal.Itoa(i));
    assert ChunkId(root, q, j) == pre + (q + ":" + Decimal.Itoa(j));
    CutAfter(pre, p + ":" + Decimal.Itoa(i), q + ":" + Decimal.Itoa(j));
    LastColon(p, Decimal.Itoa(i), q, Decimal.Itoa(j));
    Decimal.ValueOfItoa(i);
    Decimal.ValueOfItoa(j);
  }

  /** Within a project an ID belongs to one path only, even when paths contain colons. */
  lemma OwnerUnique(root: string, p: string, q: string, id: string)
    requires Owns(root, p, id) && Owns(root, q, id)
    ensures p == q
  {
    if id == MetaId(root, p) {
      assert id[0] == 'f';
      CutAfter("filemeta:" + root + ":", p, q);
    } else {
      assert id[0] == 'c';
      var i: nat :| id == ChunkId(root, p, i);
      var j: nat :| id == ChunkId(root, q, j);
      ChunkIdInjective(root, p, i, q, j);
    }
  }

  lemma OwnedIsFileId(root: string, path: string, id: string)
    requires Owns(root, path, id)
    ensures IsFileId(root, id) && id != StatusId(root)
  {
    if id == MetaId(root, path) {
      assert id[0] == 'f' && StatusId(root)[0] == 's';
    } else {
      var i: nat :| id == ChunkId(root, path, i);
      assert id == "chunk:" + root + ":" + (path + ":" + Decimal.Itoa(i));
      assert id[0] == 'c' && StatusId(root)[0] == 's';
    }
  }

  /** One root is not a colon-terminated beginning of the other. */
  predicate RootsApart(a: string, b: string) {
    a != b && !(a + ":" <= b) && !(b + ":" <= a)
  }

  lemma SharedBeginning(a: string, b: string, s: string)
    requires a + ":" <= s && b + ":" <= s && |a| <= |b|
    ensures a == b || a + ":" <= b
  {
    assert a == s[..|a|] && b == s[..|b|];
    if |a| < |b| {
      assert b[|a|] == s[|a|] == ':';
      assert b[..|a|+1] == a + ":";
    } else {
      assert a == b;
    }
  }

  /** IDs of two projects can coincide exactly when one root continues the other after a colon. */
  lemma FileIdsDisjointIff(a: string, b: string)
    ensures RootsApart(a, b) <==> forall id :: !(IsFileId(a, id) && IsFileId(b, id))
    ensures RootsApart(a, b) <==> forall p, q, id :: !(Owns(a, p, id) && Owns(b, q, id))
  {
    if RootsApart(a, b) {
      forall id ensures !(IsFileId(a, id) && IsFileId(b, id)) {
        if IsFileId(a, id) && IsFileId(b, id) {
          SharedFileId(a, b, id);
          assert false;
        }
      }
      forall p, q, id ensures !(Owns(a, p, id) && Owns(b, q, id)) {
        if Owns(a, p, id) && Owns(b, q, id) {
          OwnedIsFileId(a, p, id);
          OwnedIsFileId(b, q, id);
          assert false;
        }
      }
    } else if a == b || a + ":" <= b {
      var p := CollidingPath(a, b);
      OwnedIsFileId(a, p, MetaId(b, ""));
      OwnedIsFileId(b, "", MetaId(b, ""));
      assert Owns(a, p, MetaId(b, "")) && Owns(b, "", MetaId(b, ""));
    } else {
      var p := CollidingPath(b, a);
      OwnedIsFileId(b, p, MetaId(a, ""));
      OwnedIsFileId(a, "", MetaId(a, ""));
      assert Owns(a, "", MetaId(a, "")) && Owns(b, p, MetaId(a, ""));
    }
  }

  /** A path of the shorter root whose file record has the ID of a file record of the longer one. */
  lemma CollidingPath(a: string, b: string) returns (p: string)
    requires a == b || a + ":" <= b
    ensures MetaId(a, p) == MetaId(b, "")
  {
    if a == b {
      p := "";
    } else {
      p := b[|a|+1..] + ":";
      assert b == a + ":" + b[|a|+1..];
    }
  }

  lemma SharedFileId(a: string, b: string, id: string)
    requires IsFileId(a, id) && IsFileId(b, id)
    ensures !RootsApart(a, b)
  {
    if "chunk:" + a + ":" <= id {
      assert id[0] == 'c';
      SharedTail("chunk:", a, b, id);
    } else {
      assert id[0] == 'f';
      SharedTail("filemeta:", a, b, id);
    }
  }

  lemma SharedTail(pre: string, a: string, b: string, id: string)
    requires pre + a + ":" <= id && pre + b + ":" <= id
    ensures !RootsApart(a, b)
  {
    var s := id[|pre|..];
    assert s[..|a|+1] == id[..|pre|+|a|+1][|pre|..] == a + ":";
    assert s[..|b|+1] == id[..|pre|+|b|+1][|pre|..] == b + ":";
    if |a| <= |b| {
      SharedBeginning(a, b, s);
    } else {
      SharedBeginning(b, a, s);
    }
  }

  // ---------- the records of a file (lines 265-291, 306-363) ----------

  function ChunkMeta(cfg: Config, chunk: Chunk, path: string, file: File): Meta {
    (chunk.fields + map["path" := path, "project_id" := cfg.root, "category" := cfg.category(path),
                        "hash" := file.hash, "type" := "chunk"])["updated_at" := file.updatedAt]
  }

  function ChunkRecord(cfg: Config, chunk: Chunk, i: nat, path: string, file: File): Record {
    Record(ChunkId(cfg.root, path, i), Doc(chunk.content, ChunkMeta(cfg, chunk, path, file)))
  }

  function MetaRecord(cfg: Config, path: string, file: File): Record {
    Record(MetaId(cfg.root, path),
           Doc("", map["type" := "file_meta", "path" := path, "project_id" := cfg.root,
                       "hash" := file.hash, "updated_at" := file.updatedAt]))
  }

  /** For how many of the file's chunks there is an embedding. */
  function EmbeddedChunks(cfg: Config, path: string, f: File): nat {
    var n := |cfg.chunks(path, f.content)|;
    if f.embedded < n then f.embedded else n
  }

  /** The chunks that are stored: those before the first one without an embedding (lines 283-286). */
  function StoredChunks(cfg: Config, path: string, file: File): seq<Chunk> {
    var chunks := cfg.chunks(path, file.content);
    if file.embedded < |chunks| then chunks[..file.embedded] else chunks
  }

  function RecordsOf(cfg: Config, path: string, file: File): seq<Record> {
    var chunks := StoredChunks(cfg, path, file);
    seq(|chunks|, i requires 0 <= i < |chunks| => ChunkRecord(cfg, chunks[i], i, path, file))
    + [MetaRecord(cfg, path, file)]
  }

  lemma ChunkIdIsNoMetaId(root: string, p: string, i: nat, q: string)
    ensures ChunkId(root, p, i) != MetaId(root, q)
  {
    assert ChunkId(root, p, i)[0] == 'c' && MetaId(root, q)[0] == 'f';
  }

  lemma RecordFacts(cfg: Config, path: string, file: File, r: Record)
    requires r in RecordsOf(cfg, path, file)
    ensures Owns(cfg.root, path, r.id)
    ensures Field(r.doc.meta, "path") == path && Field(r.doc.meta, "project_id") == cfg.root
    ensures Field(r.doc.meta, "type") == (if r.id == MetaId(cfg.root, path) then "file_meta" else "chunk")
    ensures Field(r.doc.meta, "hash") == file.hash && "path" in r.doc.meta
  {
    var k :| 0 <= k < |RecordsOf(cfg, path, file)| && RecordsOf(cfg, path, file)[k] == r;
    if k < |StoredChunks(cfg, path, file)| {
      assert r == ChunkRecord(cfg, StoredChunks(cfg, path, file)[k], k, path, file);
      ChunkIdIsNoMetaId(cfg.root, path, k, path);
    } else {
      assert r == MetaRecord(cfg, path, file);
    }
  }

  lemma MetaRecordIn(cfg: Config, path: string, file: File)
    ensures MetaRecord(cfg, path, file) in RecordsOf(cfg, path, file)
  {
    var rs := RecordsOf(cfg, path, file);
    assert rs[|rs|-1] == MetaRecord(cfg, path, file);
  }

  lemma RecordsDistinct(cfg: Config, path: string, file: File, i: nat, j: nat)
    requires i < j < |RecordsOf(cfg, path, file)|
    ensures RecordsOf(cfg, path, file)[i].id != RecordsOf(cfg, path, file)[j].id
  {
    var n := |StoredChunks(cfg, path, file)|;
    if j < n {
      if ChunkId(cfg.root, path, i) == ChunkId(cfg.root, path, j) {
        ChunkIdInjective(cfg.root, path, i, path, j);
        assert false;
      }
    } else {
      ChunkIdIsNoMetaId(cfg.root, path, i, path);
    }
  }

  // ---------- the state of a project ----------

  /** The files whose records are in the store, as they were when they were indexed. */
  type Indexed = map<string, File>

  ghost predicate InRecords(cfg: Config, idx: Indexed, id: string, doc: Doc) {
    exists path :: path in idx && Record(id, doc) in RecordsOf(cfg, path, idx[path])
  }

  predicate IsFileDoc(root: string, doc: Doc) {
    Field(doc.meta, "project_id") == root &&
        (Field(doc.meta, "type") == "chunk" || Field(doc.meta, "type") == "file_meta")
  }

  ghost predicate RecordsPresent(cfg: Config, col: Collection, idx: Indexed) {
    forall path, r :: path in idx && r in RecordsOf(cfg, path, idx[path]) ==> r.id in col && col[r.id] == r.doc
  }

  ghost predicate NothingElse(cfg: Config, col: Collection, idx: Indexed) {
    forall id :: id in col && (IsFileDoc(cfg.root, col[id]) || IsFileId(cfg.root, id)) ==>
        InRecords(cfg, idx, id, col[id])
  }

  ghost predicate StatusReserved(root: string, col: Collection) {
    StatusId(root) in col ==> MatchesFilter(col[StatusId(root)], StatusFilter(root))
  }

  /** The collection holds, of this project's file records, exactly those of `idx`; and the project's status ID is
      only used for its status. */
  ghost predicate ProjectState(cfg: Config, col: Collection, idx: Indexed) {
    RecordsPresent(cfg, col, idx) && NothingElse(cfg, col, idx) && StatusReserved(cfg.root, col)
  }

  /** A project that was never indexed: no document is of its files, and none has an ID its files could get. */
  lemma FreshProjectIff(cfg: Config, col: Collection)
    ensures ProjectState(cfg, col, map[]) <==>
      StatusReserved(cfg.root, col) && forall id :: id in col ==>
          !IsFileDoc(cfg.root, col[id]) && !IsFileId(cfg.root, id)
  {
    if ProjectState(cfg, col, map[]) {
      forall id | id in col ensures !IsFileDoc(cfg.root, col[id]) && !IsFileId(cfg.root, id) {
        assert !InRecords(cfg, map[], id, col[id]);
      }
    }
  }

  /** The file records of a project. */
  function FileRecords(root: string, col: Collection): Collection {
    map id | id in col && IsFileDoc(root, col[id]) :: col[id]
  }

  /** The records of all other projects. */
  function Foreign(root: string, col: Collection): Collection {
    map id | id in col && Field(col[id].meta, "project_id") != root :: col[id]
  }

  /** The state determines the project's file records: two stores in the same state have the same ones. */
  lemma StateDeterminesRecords(cfg: Config, col: Collection, col': Collection, idx: Indexed)
    requires ProjectState(cfg, col, idx) && ProjectState(cfg, col', idx)
    ensures FileRecords(cfg.root, col) == FileRecords(cfg.root, col')
  {
    forall id ensures id in FileRecords(cfg.root, col) ==>
                      id in FileRecords(cfg.root, col') &&
                          FileRecords(cfg.root, col')[id] == FileRecords(cfg.root, col)[id]
              ensures id in FileRecords(cfg.root, col') ==> id in FileRecords(cfg.root, col)
    {
      RecordIncluded(cfg, col, col', idx, id);
      RecordIncluded(cfg, col', col, idx, id);
    }
  }

  lemma RecordIncluded(cfg: Config, col: Collection, col': Collection, idx: Indexed, id: string)
    requires NothingElse(cfg, col, idx) && RecordsPresent(cfg, col', idx)
    ensures id in col && IsFileDoc(cfg.root, col[id]) ==> id in col' && col'[id] == col[id]
  {
    if id in col && IsFileDoc(cfg.root, col[id]) {
      var path :| path in idx && Record(id, col[id]) in RecordsOf(cfg, path, idx[path]);
      assert Record(id, col[id]).id == id;
    }
  }

  // ---------- what each store operation does to it ----------

  lemma StatusFilterMeaning(doc: Doc, root: string)
    ensures MatchesFilter(doc, StatusFilter(root)) <==>
            Field(doc.meta, "type") == "project_status" && Field(doc.meta, "project_id") == root
  {
    assert "type" in StatusFilter(root) && "project_id" in StatusFilter(root);
  }

  lemma StatusIdIsNoFileId(root: string, a: string)
    ensures !IsFileId(a, StatusId(root))
  {
    assert StatusId(root)[0] == 's';
    assert ("chunk:" + a + ":")[0] == 'c' && ("filemeta:" + a + ":")[0] == 'f';
  }

  /** Deleting the old status leaves the file records alone. */
  lemma StatusDeleted(cfg: Config, col: Collection, idx: Indexed)
    requires ProjectState(cfg, col, idx)
    ensures ProjectState(cfg, col - Matching(col, StatusFilter(cfg.root)), idx)
    ensures StatusId(cfg.root) !in col - Matching(col, StatusFilter(cfg.root))
  {
    var gone := Matching(col, StatusFilter(cfg.root));
    forall path, r | path in idx && r in RecordsOf(cfg, path, idx[path]) ensures r.id !in gone {
      RecordFacts(cfg, path, idx[path], r);
      StatusFilterMeaning(col[r.id], cfg.root);
    }
  }

  lemma StatusWritten(cfg: Config, col: Collection, idx: Indexed, doc: Doc)
    requires ProjectState(cfg, col, idx) && MatchesFilter(doc, StatusFilter(cfg.root))
    ensures ProjectState(cfg, col[StatusId(cfg.root) := doc], idx)
  {
    StatusFilterMeaning(doc, cfg.root);
    StatusIdIsNoFileId(cfg.root, cfg.root);
    forall path, r | path in idx && r in RecordsOf(cfg, path, idx[path]) ensures r.id != StatusId(cfg.root) {
      RecordFacts(cfg, path, idx[path], r);
      OwnedIsFileId(cfg.root, path, r.id);
    }
  }

  lemma PathDeleted(cfg: Config, col: Collection, idx: Indexed, path: string)
    requires ProjectState(cfg, col, idx)
    ensures ProjectState(cfg, col - Matching(col, PathFilter(path, cfg.root)), idx - {path})
  {
    OtherPathsPresent(cfg, col, idx, path);
    OnlyOtherPaths(cfg, col, idx, path);
  }

  lemma OtherPathsPresent(cfg: Config, col: Collection, idx: Indexed, path: string)
    requires RecordsPresent(cfg, col, idx)
    ensures RecordsPresent(cfg, col - Matching(col, PathFilter(path, cfg.root)), idx - {path})
  {
    var gone := Matching(col, PathFilter(path, cfg.root));
    forall p, r | p in idx - {path} && r in RecordsOf(cfg, p, (idx - {path})[p])
      ensures r.id in col - gone && (col - gone)[r.id] == r.doc
    {
      OtherPathKept(cfg, col, idx, path, p, r);
    }
  }

  lemma OnlyOtherPaths(cfg: Config, col: Collection, idx: Indexed, path: string)
    requires NothingElse(cfg, col, idx)
    ensures NothingElse(cfg, col - Matching(col, PathFilter(path, cfg.root)), idx - {path})
  {
    var col' := col - Matching(col, PathFilter(path, cfg.root));
    forall id | id in col' && (IsFileDoc(cfg.root, col'[id]) || IsFileId(cfg.root, id))
      ensures InRecords(cfg, idx - {path}, id, col'[id])
    {
      KeptIsOtherPath(cfg, col, idx, path, id);
    }
  }

  lemma OtherPathKept(cfg: Config, col: Collection, idx: Indexed, path: string, p: string, r: Record)
    requires RecordsPresent(cfg, col, idx) && p in idx && p != path && r in RecordsOf(cfg, p, idx[p])
    ensures r.id in col && col[r.id] == r.doc && r.id !in Matching(col, PathFilter(path, cfg.root))
  {
    RecordFacts(cfg, p, idx[p], r);
  }

  lemma KeptIsOtherPath(cfg: Config, col: Collection, idx: Indexed, path: string, id: string)
    requires id in col && InRecords(cfg, idx, id, col[id])
    requires id !in Matching(col, PathFilter(path, cfg.root))
    ensures InRecords(cfg, idx - {path}, id, col[id])
  {
    var p :| p in idx && Record(id, col[id]) in RecordsOf(cfg, p, idx[p]);
    RecordFacts(cfg, p, idx[p], Record(id, col[id]));
    assert p in idx - {path} && (idx - {path})[p] == idx[p];
  }

  // ---------- batches ----------

  /** `batch` holds the records of the files `pending`, whole files one after another. */
  ghost predicate IsBatch(cfg: Config, pending: Indexed, batch: seq<Record>) {
    && (forall r :: r in batch ==> exists path :: path in pending && r in RecordsOf(cfg, path, pending[path]))
    && (forall path, r :: path in pending && r in RecordsOf(cfg, path, pending[path]) ==> r in batch)
    && (forall i, j :: 0 <= i < j < |batch| ==> batch[i].id != batch[j].id)
  }

  lemma BatchGrows(cfg: Config, pending: Indexed, batch: seq<Record>, path: string, file: File)
    requires IsBatch(cfg, pending, batch) && path !in pending
    ensures IsBatch(cfg, pending[path := file], batch + RecordsOf(cfg, path, file))
  {
    var rs := RecordsOf(cfg, path, file);
    var batch', pending' := batch + rs, pending[path := file];
    forall r | r in batch' ensures exists p :: p in pending' && r in RecordsOf(cfg, p, pending'[p]) {
      if r in batch {
        var p :| p in pending && r in RecordsOf(cfg, p, pending[p]);
        assert p in pending' && r in RecordsOf(cfg, p, pending'[p]);
      } else {
        assert path in pending' && r in RecordsOf(cfg, path, pending'[path]);
      }
    }
    forall i, j | 0 <= i < j < |batch'| ensures batch'[i].id != batch'[j].id {
      if i >= |batch| {
        RecordsDistinct(cfg, path, file, i - |batch|, j - |batch|);
      } else if j >= |batch| {
        var r, q := batch[i], rs[j-|batch|];
        assert r in batch && q in rs;
        var p :| p in pending && r in RecordsOf(cfg, p, pending[p]);
        RecordFacts(cfg, p, pending[p], r);
        RecordFacts(cfg, path, file, q);
        if r.id == q.id {
          OwnerUnique(cfg.root, p, path, r.id);
          assert false;
        }
      }
    }
  }

  /** None of the batch's IDs is in use: it is safe to insert whatever its texts are. */
  lemma BatchIsNew(cfg: Config, col: Collection, idx: Indexed, pending: Indexed, batch: seq<Record>)
    requires ProjectState(cfg, col, idx) && IsBatch(cfg, pending, batch) && idx.Keys !! pending.Keys
    ensures forall r :: r in batch ==> r.id !in col
  {
    forall r | r in batch ensures r.id !in col {
      var p :| p in pending && r in RecordsOf(cfg, p, pending[p]);
      UnindexedIdIsNew(cfg, col, idx, p, pending[p], r);
    }
  }

  lemma UnindexedIdIsNew(cfg: Config, col: Collection, idx: Indexed, p: string, file: File, r: Record)
    requires ProjectState(cfg, col, idx) && p !in idx && r in RecordsOf(cfg, p, file)
    ensures r.id !in col
  {
    RecordFacts(cfg, p, file, r);
    OwnedIsFileId(cfg.root, p, r.id);
    if r.id in col {
      var q :| q in idx && Record(r.id, col[r.id]) in RecordsOf(cfg, q, idx[q]);
      RecordFacts(cfg, q, idx[q], Record(r.id, col[r.id]));
      OwnerUnique(cfg.root, p, q, r.id);
      assert false;
    }
  }

  /** What AddDocuments leaves of a batch without repeated IDs. */
  lemma AddedDistinct(col: Collection, batch: seq<Record>, col': Collection, r: Record)
    requires AddedTo(col, batch, col') && r in batch
    requires forall i, j :: 0 <= i < j < |batch| ==> batch[i].id != batch[j].id
    ensures r.id in col' && col'[r.id] == r.doc
  {
    var k :| 0 <= k < |batch| && batch[k] == r;
    assert InBatch(batch, r.id);
    var i :| 0 <= i < |batch| && batch[i] == Record(r.id, col'[r.id]);
    assert i == k;
  }

  lemma BatchWritten(cfg: Config, col: Collection, idx: Indexed, pending: Indexed, batch: seq<Record>, col': Collection)
    requires ProjectState(cfg, col, idx) && IsBatch(cfg, pending, batch) && idx.Keys !! pending.Keys
    requires AddedTo(col, batch, col')
    ensures ProjectState(cfg, col', idx + pending)
  {
    BatchIsNew(cfg, col, idx, pending, batch);
    var all := idx + pending;
    forall p, r | p in all && r in RecordsOf(cfg, p, all[p]) ensures r.id in col' && col'[r.id] == r.doc {
      if p in pending {
        AddedDistinct(col, batch, col', r);
      } else {
        assert r.id in col;
      }
    }
    forall id | id in col' && (IsFileDoc(cfg.root, col'[id]) || IsFileId(cfg.root, id))
      ensures InRecords(cfg, all, id, col'[id])
    {
      WrittenOrOld(cfg, col, idx, pending, batch, col', id);
    }
    StatusNotInBatch(cfg, pending, batch);
  }

  lemma WrittenOrOld(cfg: Config, col: Collection, idx: Indexed, pending: Indexed, batch: seq<Record>,
                     col': Collection, id: string)
    requires ProjectState(cfg, col, idx) && IsBatch(cfg, pending, batch) && idx.Keys !! pending.Keys
    requires AddedTo(col, batch, col') && id in col' && (IsFileDoc(cfg.root, col'[id]) || IsFileId(cfg.root, id))
    ensures InRecords(cfg, idx + pending, id, col'[id])
  {
    var all := idx + pending;
    if InBatch(batch, id) {
      var i :| 0 <= i < |batch| && batch[i] == Record(id, col'[id]);
      assert batch[i] in batch;
      var p :| p in pending && batch[i] in RecordsOf(cfg, p, pending[p]);
      assert p in all && all[p] == pending[p];
    } else {
      var p :| p in idx && Record(id, col[id]) in RecordsOf(cfg, p, idx[p]);
      assert p in all && all[p] == idx[p];
    }
  }

  lemma StatusNotInBatch(cfg: Config, pending: Indexed, batch: seq<Record>)
    requires IsBatch(cfg, pending, batch)
    ensures !InBatch(batch, StatusId(cfg.root))
  {
    if InBatch(batch, StatusId(cfg.root)) {
      var i :| 0 <= i < |batch| && batch[i].id == StatusId(cfg.root);
      assert batch[i] in batch;
      var p :| p in pending && batch[i] in RecordsOf(cfg, p, pending[p]);
      RecordFacts(cfg, p, pending[p], batch[i]);
      OwnedIsFileId(cfg.root, p, batch[i].id);
      assert false;
    }
  }

  // ---------- other projects ----------

  lemma ForeignKeptByDelete(root: string, col: Collection, ids: set<string>)
    requires forall id :: id in ids && id in col ==> Field(col[id].meta, "project_id") == root
    ensures Foreign(root, col - ids) == Foreign(root, col)
  {}

  lemma ForeignKeptByInsert(root: string, col: Collection, batch: seq<Record>, col': Collection)
    requires AddedTo(col, batch, col')
    requires forall r :: r in batch ==> r.id !in col && Field(r.doc.meta, "project_id") == root
    ensures Foreign(root, col') == Foreign(root, col)
  {
    forall id ensures id in Foreign(root, col') <==> id in Foreign(root, col)
              ensures id in Foreign(root, col') ==> col'[id] == Foreign(root, col)[id]
    {
      if InBatch(batch, id) && id in col' {
        var i :| 0 <= i < |batch| && batch[i] == Record(id, col'[id]);
        assert batch[i] in batch;
      }
    }
  }

  /** What a run for `root` may do to the collection: other projects' records stay, and what it adds or changes is
      its status or has one of its file IDs. */
  ghost predicate TouchesOnly(root: string, col: Collection, col': Collection) {
    && Foreign(root, col') == Foreign(root, col)
    && forall id :: id in col' && Field(col'[id].meta, "project_id") == root ==>
         id == StatusId(root) || IsFileId(root, id) || (id in col && col[id] == col'[id])
  }

  lemma ForeignSame(root: string, col: Collection, col': Collection, id: string)
    requires Foreign(root, col') == Foreign(root, col)
    ensures id in col && Field(col[id].meta, "project_id") != root ==> id in col' && col'[id] == col[id]
    ensures id in col' && Field(col'[id].meta, "project_id") != root ==> id in col && col'[id] == col[id]
  {
    assert id in Foreign(root, col) <==> id in Foreign(root, col');
  }

  /** A run for one root leaves another project's state alone when their IDs cannot coincide. */
  lemma OtherProjectKept(root: string, other: Config, col: Collection, col': Collection, idx: Indexed)
    requires RootsApart(root, other.root) && TouchesOnly(root, col, col') && ProjectState(other, col, idx)
    ensures ProjectState(other, col', idx)
  {
    OtherRecordsKept(root, other, col, col', idx);
    forall id | id in col' && (IsFileDoc(other.root, col'[id]) || IsFileId(other.root, id))
      ensures InRecords(other, idx, id, col'[id])
    {
      OtherIdKept(root, other.root, col, col', id);
    }
    OtherStatusKept(root, other.root, col, col');
  }

  lemma OtherRecordsKept(root: string, other: Config, col: Collection, col': Collection, idx: Indexed)
    requires root != other.root && TouchesOnly(root, col, col') && RecordsPresent(other, col, idx)
    ensures RecordsPresent(other, col', idx)
  {
    forall p, r | p in idx && r in RecordsOf(other, p, idx[p]) ensures r.id in col' && col'[r.id] == r.doc {
      OtherRecordKept(root, other, col, col', idx, p, r);
    }
  }

  lemma OtherRecordKept(root: string, other: Config, col: Collection, col': Collection, idx: Indexed, p: string,
                        r: Record)
    requires root != other.root && TouchesOnly(root, col, col') && RecordsPresent(other, col, idx)
    requires p in idx && r in RecordsOf(other, p, idx[p])
    ensures r.id in col' && col'[r.id] == r.doc
  {
    RecordFacts(other, p, idx[p], r);
    ForeignSame(root, col, col', r.id);
  }

  lemma OtherStatusKept(root: string, other: string, col: Collection, col': Collection)
    requires root != other && TouchesOnly(root, col, col')
    ensures StatusId(other) in col' ==> StatusId(other) in col && col'[StatusId(other)] == col[StatusId(other)]
  {
    StatusIdIsNoFileId(other, root);
    CutApart(root, other);
    ForeignSame(root, col, col', StatusId(other));
  }

  lemma OtherIdKept(root: string, other: string, col: Collection, col': Collection, id: string)
    requires RootsApart(root, other) && TouchesOnly(root, col, col')
    requires id in col' && (IsFileDoc(other, col'[id]) || IsFileId(other, id))
    ensures id in col && col'[id] == col[id]
  {
    FileIdsDisjointIff(root, other);
    StatusIdIsNoFileId(root, other);
    ForeignSame(root, col, col', id);
  }

  lemma CutApart(a: string, b: string)
    requires a != b
    ensures StatusId(a) != StatusId(b)
  {
    if StatusId(a) == StatusId(b) {
      CutAfter("status:", a, b);
      assert false;
    }
  }
}
