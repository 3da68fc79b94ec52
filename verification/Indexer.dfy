/** Indexing of a whole project, working on a store (internal/indexer/scanner.go, lines 68-217 and 265-383). */
module Indexer {
  import opened StoreModel
  import opened RecordStore
  import opened IndexerModel
  import opened IncrementalIndex
  import opened StoredFiles
  import Wrappers

  const BATCH_SIZE := 50

  datatype IndexSummary = IndexSummary(filesProcessed: nat, filesIndexed: nat, filesSkipped: nat, errors: nat)

  /** The outcome of one file. */
  datatype FileResult = FileResult(indexed: bool, err: bool, relPath: string, records: seq<Record>)

  predicate Indexes(f: FileState) {
    f.Readable?
  }

  predicate Errs(f: FileState) {
    f.Failing? && !f.panics
  }

  predicate Panics(f: FileState) {
    f.Failing? && f.panics
  }

  /** What ProcessFile yields for a file; a recovered panic yields the zero result, which names no file. */
  ghost predicate IsOutcome(cfg: Config, f: FileState, relPath: string, r: FileResult) {
    match f
    case Readable(file) => r == FileResult(true, false, relPath, RecordsOf(cfg, relPath, file))
    case Failing(_, panics) => r == FileResult(false, !panics, if panics then "" else relPath, [])
  }

  /** `files` lists every path of the disk once. */
  ghost predicate ListsDisk(files: seq<string>, disk: Disk) {
    && (forall p :: p in files <==> p in disk)
    && forall i, j :: 0 <= i < j < |files| ==> files[i] != files[j]
  }

  /** The store is valid, its index is in step, and of this project it holds exactly the records of `idx`. */
  ghost predicate InState(store: Store, cfg: Config, idx: Indexed)
    reads store, store.bm25
  {
    store.Valid() && Coherent(DocTokens(store.env), store.Abs()) && ProjectState(cfg, store.collection, idx)
  }

  // ---------- single steps ----------

  method WriteStatus(store: Store, cfg: Config, status: string, ghost idx: Indexed, ghost base: Collection)
    requires InState(store, cfg, idx) && TouchesOnly(cfg.root, base, store.collection)
    modifies store`collection, store`parsedCache, store.bm25
    ensures store.bm25 == old(store.bm25)
    ensures InState(store, cfg, idx) && TouchesOnly(cfg.root, base, store.collection)
  {
    ghost var s := store.Abs();
    store.SetStatus(cfg.root, status);
    StatusStep(DocTokens(store.env), cfg, s, idx, status, store.Abs());
    TouchesOnlyTransitive(cfg.root, base, s.col, store.collection);
  }

  method DeletePath(store: Store, cfg: Config, path: string, ghost idx: Indexed, ghost base: Collection)
    requires InState(store, cfg, idx) && TouchesOnly(cfg.root, base, store.collection)
    modifies store`collection, store.bm25
    ensures store.bm25 == old(store.bm25)
    ensures InState(store, cfg, idx - {path}) && TouchesOnly(cfg.root, base, store.collection)
  {
    ghost var s := store.Abs();
    DeleteStep(DocTokens(store.env), cfg, s, idx, path);
    store.DeleteByPath(path, cfg.root);
    TouchesOnlyTransitive(cfg.root, base, s.col, store.collection);
  }

  method InsertBatch(store: Store, cfg: Config, batch: seq<Record>, ghost idx: Indexed, ghost pending: Indexed,
                     ghost base: Collection)
    requires InState(store, cfg, idx) && TouchesOnly(cfg.root, base, store.collection)
    requires IsBatch(cfg, pending, batch) && idx.Keys !! pending.Keys
    modifies store`collection, store`parsedCache, store.bm25
    ensures store.bm25 == old(store.bm25)
    ensures InState(store, cfg, idx + pending) && TouchesOnly(cfg.root, base, store.collection)
  {
    ghost var s := store.Abs();
    store.Insert(batch);
    InsertStep(DocTokens(store.env), cfg, s, idx, pending, batch, store.Abs());
    TouchesOnlyTransitive(cfg.root, base, s.col, store.collection);
  }

  // ---------- one file ----------

  /** Lines 265-291: a chunk is stored as long as there is an embedding for it. */
  method PrepareRecords(cfg: Config, chunks: seq<Chunk>, relPath: string, file: File) returns (records: seq<Record>)
    requires chunks == cfg.chunks(relPath, file.content)
    ensures records == RecordsOf(cfg, relPath, file)
  {
    if |chunks| == 0 {
      return [MetaRecord(cfg, relPath, file)];
    }
    records := [];
    for i := 0 to |chunks|
      invariant i <= file.embedded
      invariant records == RecordsOf(cfg, relPath, file)[..i]
    {
      if i >= file.embedded {
        break;
      }
      records := records + [ChunkRecord(cfg, chunks[i], i, relPath, file)];
    }
    records := records + [MetaRecord(cfg, relPath, file)];
  }

  /** Lines 193-217. */
  method ProcessFile(cfg: Config, disk: Disk, relPath: string) returns (r: FileResult)
    requires relPath in disk
    ensures IsOutcome(cfg, disk[relPath], relPath, r)
  {
    match disk[relPath]
    case Failing(_, panics) =>
      r := if panics then FileResult(false, false, "", []) else FileResult(false, true, relPath, []);
    case Readable(file) =>
      var chunks := cfg.chunks(relPath, file.content);
      var records := PrepareRecords(cfg, chunks, relPath, file);
      r := FileResult(true, false, relPath, records);
  }

  /** Lines 366-383. A file whose processing panics is reported as indexed, although nothing is done. */
  method IndexSingleFile(store: Store, cfg: Config, disk: Disk, relPath: string, ghost idx: Indexed)
    returns (ok: bool)
    requires InState(store, cfg, idx) && relPath in disk
    modifies store`collection, store`parsedCache, store.bm25
    ensures store.bm25 == old(store.bm25)
    ensures ok == (CurrentHash(disk[relPath]) != "" && !Errs(disk[relPath]))
    ensures InState(store, cfg, if ok && disk[relPath].Readable? then idx[relPath := disk[relPath].file] else idx)
    ensures ok && disk[relPath].Readable? ==> HasFile(cfg, store.collection, relPath, disk[relPath].file)
    ensures TouchesOnly(cfg.root, old(store.collection), store.collection)
  {
    ghost var base := store.collection;
    TouchesOnlySelf(cfg.root, base);
    if CurrentHash(disk[relPath]) == "" {
      return false;
    }
    var r := ProcessFile(cfg, disk, relPath);
    if r.err {
      return false;
    }
    if r.indexed {
      ghost var file := disk[relPath].file;
      SingleFileBatch(cfg, idx, relPath, file);
      DeletePath(store, cfg, relPath, idx, base);
      InsertBatch(store, cfg, r.records, idx - {relPath}, map[relPath := file], base);
      StateHasFile(cfg, store.collection, idx[relPath := file], relPath);
    }
    return true;
  }

  lemma SingleFileBatch(cfg: Config, idx: Indexed, path: string, file: File)
    ensures IsBatch(cfg, map[path := file], RecordsOf(cfg, path, file))
    ensures (idx - {path}) + map[path := file] == idx[path := file]
  {
    EmptyBatch(cfg);
    BatchGrows(cfg, map[], [], path, file);
    var pending: Indexed := map[];
    assert pending[path := file] == map[path := file] && [] + RecordsOf(cfg, path, file) == RecordsOf(cfg, path, file);
  }

  lemma EmptyBatch(cfg: Config)
    ensures IsBatch(cfg, map[], [])
  {}

  // ---------- discovery and cleanup ----------

  function ChangedFiles(hashes: map<string, string>, disk: Disk, files: seq<string>): seq<string>
    requires forall p :: p in files ==> p in disk
  {
    if files == [] then []
    else
      var rest := ChangedFiles(hashes, disk, files[..|files|-1]);
      var p := files[|files|-1];
      if IsChanged(hashes, disk, p) then rest + [p] else rest
  }

  lemma {:induction false} ChangedFilesFacts(hashes: map<string, string>, disk: Disk, files: seq<string>)
    requires forall p :: p in files ==> p in disk
    requires forall i, j :: 0 <= i < j < |files| ==> files[i] != files[j]
    ensures forall p :: p in ChangedFiles(hashes, disk, files) <==> p in files && IsChanged(hashes, disk, p)
    ensures var c := ChangedFiles(hashes, disk, files); forall i, j :: 0 <= i < j < |c| ==> c[i] != c[j]
    ensures |ChangedFiles(hashes, disk, files)| <= |files|
  {
    if files != [] {
      var n := |files| - 1;
      ChangedFilesFacts(hashes, disk, files[..n]);
      assert files == files[..n] + [files[n]];
      assert files[n] !in files[..n];
    }
  }

  /** Lines 93-106. */
  method DiscoverFilesToIndex(disk: Disk, files: seq<string>, hashMapping: map<string, string>)
    returns (toIndex: seq<string>, skipped: nat)
    requires forall p :: p in files ==> p in disk
    ensures toIndex == ChangedFiles(hashMapping, disk, files)
    ensures skipped + |toIndex| == |files|
  {
    toIndex, skipped := [], 0;
    for i := 0 to |files|
      invariant toIndex == ChangedFiles(hashMapping, disk, files[..i])
      invariant skipped + |toIndex| == i
    {
      var relPath := files[i];
      assert files[..i+1][..i] == files[..i];
      var currentHash := CurrentHash(disk[relPath]);
      if relPath in hashMapping && hashMapping[relPath] == currentHash {
        skipped := skipped + 1;
      } else {
        toIndex := toIndex + [relPath];
      }
    }
    assert files[..|files|] == files;
  }

  /** What the cleanup has kept while the paths of `todo` are still to be looked at. */
  function KeptSoFar(idx: Indexed, disk: Disk, todo: set<string>): Indexed {
    map p | p in idx && (p in todo || p in disk) :: idx[p]
  }

  lemma KeptSoFarSteps(idx: Indexed, disk: Disk, todo: set<string>, p: string)
    ensures todo == idx.Keys ==> KeptSoFar(idx, disk, todo) == idx
    ensures todo == {} ==> KeptSoFar(idx, disk, todo) == Kept(idx, disk)
    ensures KeptSoFar(idx, disk, todo - {p}) ==
            if p in disk then KeptSoFar(idx, disk, todo) else KeptSoFar(idx, disk, todo) - {p}
  {}

  /** Lines 108-124. */
  method CleanupStaleFiles(store: Store, cfg: Config, disk: Disk, files: seq<string>, hashMapping: map<string, string>,
                           ghost idx: Indexed, ghost base: Collection)
    requires InState(store, cfg, idx) && TouchesOnly(cfg.root, base, store.collection)
    requires ListsDisk(files, disk) && hashMapping.Keys == idx.Keys
    modifies store`collection, store.bm25
    ensures store.bm25 == old(store.bm25)
    ensures InState(store, cfg, Kept(idx, disk)) && TouchesOnly(cfg.root, base, store.collection)
  {
    var todo := hashMapping.Keys;
    KeptSoFarSteps(idx, disk, todo, "");
    while todo != {}
      invariant store.bm25 == old(store.bm25)
      invariant InState(store, cfg, KeptSoFar(idx, disk, todo)) && TouchesOnly(cfg.root, base, store.collection)
    {
      var dbPath :| dbPath in todo;
      KeptSoFarSteps(idx, disk, todo, dbPath);
      if dbPath !in files {
        DeletePath(store, cfg, dbPath, KeptSoFar(idx, disk, todo), base);
      }
      todo := todo - {dbPath};
    }
    KeptSoFarSteps(idx, disk, todo, "");
  }

  // ---------- processing ----------

  /** Where collectResults stands: `cur` is in the store, `pending` in the batch, `done` are the files seen. */
  ghost predicate Collecting(cfg: Config, idx: Indexed, disk: Disk, done: set<string>, cur: Indexed, pending: Indexed,
                             batch: seq<Record>) {
    && IsBatch(cfg, pending, batch)
    && cur.Keys !! pending.Keys
    && pending.Keys <= done
    && cur + pending == Reindexed(idx, disk, done)
  }

  /** A file moves from the store to the batch. */
  lemma MoveToPending(cur: Indexed, pending: Indexed, p: string, f: File)
    requires cur.Keys !! pending.Keys
    ensures (cur - {p}) + pending[p := f] == (cur + pending)[p := f]
    ensures (cur - {p}).Keys !! pending[p := f].Keys
  {}

  lemma CollectIndexed(cfg: Config, idx: Indexed, disk: Disk, done: set<string>, cur: Indexed, pending: Indexed,
                       batch: seq<Record>, p: string)
    requires Collecting(cfg, idx, disk, done, cur, pending, batch)
    requires p in disk && disk[p].Readable? && p !in done
    ensures Collecting(cfg, idx, disk, done + {p}, cur - {p}, pending[p := disk[p].file],
                       batch + RecordsOf(cfg, p, disk[p].file))
  {
    var f := disk[p].file;
    ReindexedOne(idx, disk, done, p);
    MoveToPending(cur, pending, p, f);
    BatchWithFile(cfg, pending, batch, p, f);
    assert pending[p := f].Keys == pending.Keys + {p};
  }

  lemma BatchWithFile(cfg: Config, pending: Indexed, batch: seq<Record>, p: string, f: File)
    requires IsBatch(cfg, pending, batch) && p !in pending
    ensures IsBatch(cfg, pending[p := f], batch + RecordsOf(cfg, p, f))
  {
    BatchGrows(cfg, pending, batch, p, f);
  }

  lemma CollectFailed(cfg: Config, idx: Indexed, disk: Disk, done: set<string>, cur: Indexed, pending: Indexed,
                      batch: seq<Record>, p: string)
    requires Collecting(cfg, idx, disk, done, cur, pending, batch) && p in disk && disk[p].Failing?
    ensures Collecting(cfg, idx, disk, done + {p}, cur, pending, batch)
  {
    ReindexedOne(idx, disk, done, p);
  }

  lemma CollectFlushed(cfg: Config, idx: Indexed, disk: Disk, done: set<string>, cur: Indexed, pending: Indexed,
                       batch: seq<Record>)
    requires Collecting(cfg, idx, disk, done, cur, pending, batch)
    ensures Collecting(cfg, idx, disk, done, cur + pending, map[], [])
  {
    EmptyBatch(cfg);
    assert (cur + pending) + map[] == cur + pending;
  }

  /** The paths among these whose files are of some kind. */
  ghost function Those(disk: Disk, paths: set<string>, kind: FileState -> bool): set<string> {
    set p | p in paths && p in disk && kind(disk[p])
  }

  lemma ThoseGrow(disk: Disk, paths: set<string>, kind: FileState -> bool, p: string)
    requires p !in paths && p in disk
    ensures |Those(disk, paths + {p}, kind)| == |Those(disk, paths, kind)| + if kind(disk[p]) then 1 else 0
  {
    if kind(disk[p]) {
      assert Those(disk, paths + {p}, kind) == Those(disk, paths, kind) + {p};
    } else {
      assert Those(disk, paths + {p}, kind) == Those(disk, paths, kind);
    }
  }

  /** Every file is indexed, fails with an error, or panics. */
  lemma ThreeKinds(disk: Disk, paths: set<string>)
    requires forall p :: p in paths ==> p in disk
    ensures |paths| == |Those(disk, paths, Indexes)| + |Those(disk, paths, Errs)| + |Those(disk, paths, Panics)|
  {
    var i, e, q := Those(disk, paths, Indexes), Those(disk, paths, Errs), Those(disk, paths, Panics);
    assert paths == i + e + q;
    assert |i + e| == |i| + |e|;
    assert |i + e + q| == |i + e| + |q|;
  }

  /** One round of collectResults (lines 160-184): the result of one file is taken in. */
  method CollectResult(store: Store, cfg: Config, disk: Disk, r: FileResult, batch0: seq<Record>, status: string,
                       ghost path: string, ghost idx: Indexed, ghost done: set<string>,
                       ghost cur0: Indexed, ghost pending0: Indexed, ghost base: Collection)
    returns (batch: seq<Record>, ghost cur: Indexed, ghost pending: Indexed)
    requires InState(store, cfg, cur0) && TouchesOnly(cfg.root, base, store.collection)
    requires Collecting(cfg, idx, disk, done, cur0, pending0, batch0)
    requires path in disk && path !in done && IsOutcome(cfg, disk[path], path, r)
    modifies store`collection, store`parsedCache, store.bm25
    ensures store.bm25 == old(store.bm25)
    ensures InState(store, cfg, cur) && TouchesOnly(cfg.root, base, store.collection)
    ensures Collecting(cfg, idx, disk, done + {path}, cur, pending, batch)
  {
    cur, pending, batch := cur0, pending0, batch0;
    if r.indexed {
      CollectIndexed(cfg, idx, disk, done, cur, pending, batch, path);
      DeletePath(store, cfg, r.relPath, cur, base);
      cur, pending := cur - {path}, pending[path := disk[path].file];
      batch := batch + r.records;
    } else {
      CollectFailed(cfg, idx, disk, done, cur, pending, batch, path);
    }
    if |batch| >= BATCH_SIZE {
      batch, cur, pending := Flush(store, cfg, batch, disk, idx, done + {path}, cur, pending, base);
    }
    WriteStatus(store, cfg, status, cur, base);
  }

  /** The batch is inserted and emptied (lines 174-177 and 187-189). */
  method Flush(store: Store, cfg: Config, batch0: seq<Record>, ghost disk: Disk, ghost idx: Indexed,
               ghost done: set<string>, ghost cur0: Indexed, ghost pending0: Indexed, ghost base: Collection)
    returns (batch: seq<Record>, ghost cur: Indexed, ghost pending: Indexed)
    requires InState(store, cfg, cur0) && TouchesOnly(cfg.root, base, store.collection)
    requires Collecting(cfg, idx, disk, done, cur0, pending0, batch0)
    modifies store`collection, store`parsedCache, store.bm25
    ensures store.bm25 == old(store.bm25)
    ensures InState(store, cfg, cur) && TouchesOnly(cfg.root, base, store.collection)
    ensures Collecting(cfg, idx, disk, done, cur, pending, batch)
    ensures cur == cur0 + pending0 && pending == map[] && batch == []
  {
    CollectFlushed(cfg, idx, disk, done, cur0, pending0, batch0);
    InsertBatch(store, cfg, batch0, cur0, pending0, base);
    cur, pending, batch := cur0 + pending0, map[], [];
  }

  lemma CollectStart(cfg: Config, idx: Indexed, disk: Disk)
    ensures Collecting(cfg, idx, disk, {}, idx, map[], [])
  {
    EmptyBatch(cfg);
    ReindexedNone(idx, disk);
    assert idx + map[] == idx;
  }

  lemma CollectEnd(cfg: Config, idx: Indexed, disk: Disk, done: set<string>, cur: Indexed, pending: Indexed)
    requires Collecting(cfg, idx, disk, done, cur, pending, [])
    ensures cur == Reindexed(idx, disk, done)
  {
    forall p ensures p !in pending {
      if p in pending {
        PendingHasRecord(cfg, pending, [], p);
      }
    }
    assert cur + pending == cur;
  }

  lemma PendingHasRecord(cfg: Config, pending: Indexed, batch: seq<Record>, p: string)
    requires IsBatch(cfg, pending, batch) && p in pending
    ensures batch != []
  {
    MetaRecordIn(cfg, p, pending[p]);
    assert MetaRecord(cfg, p, pending[p]) in batch;
  }

  /** Where the run stands while the files of `todo` are open. */
  ghost predicate Underway(cfg: Config, idx: Indexed, disk: Disk, all: set<string>, todo: set<string>, cur: Indexed,
                           pending: Indexed, batch: seq<Record>, filesIndexed: nat, errors: nat) {
    && todo <= all && (forall p :: p in all ==> p in disk)
    && Collecting(cfg, idx, disk, all - todo, cur, pending, batch)
    && Counted(disk, all - todo, filesIndexed, errors)
  }

  /** The summary's counters when the files of `done` have been looked at. */
  ghost predicate Counted(disk: Disk, done: set<string>, filesIndexed: nat, errors: nat) {
    filesIndexed == |Those(disk, done, Indexes)| && errors == |Those(disk, done, Errs)|
  }

  lemma UnderwayStart(cfg: Config, idx: Indexed, disk: Disk, all: set<string>)
    requires forall p :: p in all ==> p in disk
    ensures Underway(cfg, idx, disk, all, all, idx, map[], [], 0, 0)
  {
    CollectStart(cfg, idx, disk);
    assert all - all == {};
    assert Those(disk, {}, Indexes) == {} && Those(disk, {}, Errs) == {};
  }

  lemma CountedStep(disk: Disk, done: set<string>, filesIndexed: nat, errors: nat, p: string)
    requires p !in done && p in disk && Counted(disk, done, filesIndexed, errors)
    ensures Counted(disk, done + {p}, if Indexes(disk[p]) then filesIndexed + 1 else filesIndexed,
                    if Errs(disk[p]) then errors + 1 else errors)
  {
    ThoseGrow(disk, done, Indexes, p);
    ThoseGrow(disk, done, Errs, p);
  }

  /** A worker's result for one open file arrives. */
  method NextResult(store: Store, cfg: Config, disk: Disk, relPath: string, batch0: seq<Record>,
                    indexed0: nat, errors0: nat, processed: nat, total: nat, progress: (nat, nat, string) -> string,
                    ghost idx: Indexed, ghost all: set<string>, ghost todo: set<string>,
                    ghost cur0: Indexed, ghost pending0: Indexed, ghost base: Collection)
    returns (batch: seq<Record>, indexed: nat, errors: nat, ghost cur: Indexed, ghost pending: Indexed)
    requires InState(store, cfg, cur0) && TouchesOnly(cfg.root, base, store.collection)
    requires Underway(cfg, idx, disk, all, todo, cur0, pending0, batch0, indexed0, errors0) && relPath in todo
    modifies store`collection, store`parsedCache, store.bm25
    ensures store.bm25 == old(store.bm25)
    ensures InState(store, cfg, cur) && TouchesOnly(cfg.root, base, store.collection)
    ensures Underway(cfg, idx, disk, all, todo - {relPath}, cur, pending, batch, indexed, errors)
  {
    var r := ProcessFile(cfg, disk, relPath);
    var status := progress(processed, total, r.relPath);
    batch, cur, pending :=
      CollectResult(store, cfg, disk, r, batch0, status, relPath, idx, all - todo, cur0, pending0, base);
    indexed := if r.indexed then indexed0 + 1 else indexed0;
    errors := if r.err then errors0 + 1 else errors0;
    UnderwayStep(cfg, idx, disk, all, todo, cur0, pending0, batch0, indexed0, errors0, relPath, cur, pending, batch);
  }

  lemma UnderwayStep(cfg: Config, idx: Indexed, disk: Disk, all: set<string>, todo: set<string>,
                     cur0: Indexed, pending0: Indexed, batch0: seq<Record>, filesIndexed: nat, errors: nat, p: string,
                     cur: Indexed, pending: Indexed, batch: seq<Record>)
    requires Underway(cfg, idx, disk, all, todo, cur0, pending0, batch0, filesIndexed, errors) && p in todo
    requires Collecting(cfg, idx, disk, (all - todo) + {p}, cur, pending, batch)
    ensures Underway(cfg, idx, disk, all, todo - {p}, cur, pending, batch,
                     if Indexes(disk[p]) then filesIndexed + 1 else filesIndexed,
                     if Errs(disk[p]) then errors + 1 else errors)
  {
    CountedStep(disk, all - todo, filesIndexed, errors, p);
    assert (all - todo) + {p} == all - (todo - {p});
  }

  /** The end of the run: what is left in the batch is inserted (lines 187-189). */
  method LastFlush(store: Store, cfg: Config, disk: Disk, batch: seq<Record>, ghost idx: Indexed,
                   ghost all: set<string>, ghost cur: Indexed, ghost pending: Indexed, ghost base: Collection)
    requires InState(store, cfg, cur) && TouchesOnly(cfg.root, base, store.collection)
    requires Collecting(cfg, idx, disk, all, cur, pending, batch)
    modifies store`collection, store`parsedCache, store.bm25
    ensures store.bm25 == old(store.bm25)
    ensures InState(store, cfg, Reindexed(idx, disk, all)) && TouchesOnly(cfg.root, base, store.collection)
  {
    if |batch| > 0 {
      InsertBatch(store, cfg, batch, cur, pending, base);
    } else {
      CollectEnd(cfg, idx, disk, all, cur, pending);
    }
  }

  /** Lines 126-190. The workers finish in any order: the next result is that of any file still open. */
  method ProcessIndexing(store: Store, cfg: Config, disk: Disk, toIndex: seq<string>, ghost idx: Indexed,
                         progress: (nat, nat, string) -> string, ghost base: Collection)
    returns (filesIndexed: nat, errors: nat)
    requires InState(store, cfg, idx) && TouchesOnly(cfg.root, base, store.collection)
    requires forall p :: p in toIndex ==> p in disk
    modifies store`collection, store`parsedCache, store.bm25
    ensures store.bm25 == old(store.bm25)
    ensures InState(store, cfg, Reindexed(idx, disk, Elements(toIndex)))
    ensures TouchesOnly(cfg.root, base, store.collection)
    ensures Counted(disk, Elements(toIndex), filesIndexed, errors)
  {
    ghost var all := Elements(toIndex);
    var batch: seq<Record>;
    ghost var cur, pending: Indexed;
    batch, filesIndexed, errors, cur, pending := CollectResults(store, cfg, disk, toIndex, idx, progress, base);
    assert all - {} == all;
    LastFlush(store, cfg, disk, batch, idx, all, cur, pending, base);
  }

  /** The loop of collectResults (lines 160-185). */
  method CollectResults(store: Store, cfg: Config, disk: Disk, toIndex: seq<string>, ghost idx: Indexed,
                        progress: (nat, nat, string) -> string, ghost base: Collection)
    returns (batch: seq<Record>, filesIndexed: nat, errors: nat, ghost cur: Indexed, ghost pending: Indexed)
    requires InState(store, cfg, idx) && TouchesOnly(cfg.root, base, store.collection)
    requires forall p :: p in toIndex ==> p in disk
    modifies store`collection, store`parsedCache, store.bm25
    ensures store.bm25 == old(store.bm25)
    ensures InState(store, cfg, cur) && TouchesOnly(cfg.root, base, store.collection)
    ensures Underway(cfg, idx, disk, Elements(toIndex), {}, cur, pending, batch, filesIndexed, errors)
  {
    cur, pending := idx, map[];
    batch, filesIndexed, errors := [], 0, 0;
    ghost var all := Elements(toIndex);
    var todo, processed := Elements(toIndex), 0;
    UnderwayStart(cfg, idx, disk, all);
    while todo != {}
      invariant store.bm25 == old(store.bm25)
      invariant InState(store, cfg, cur) && TouchesOnly(cfg.root, base, store.collection)
      invariant Underway(cfg, idx, disk, all, todo, cur, pending, batch, filesIndexed, errors)
    {
      var relPath :| relPath in todo;
      processed := processed + 1;
      batch, filesIndexed, errors, cur, pending :=
        NextResult(store, cfg, disk, relPath, batch, filesIndexed, errors, processed, |toIndex|, progress,
                   idx, all, todo, cur, pending, base);
      todo := todo - {relPath};
    }
  }

  function Elements(s: seq<string>): set<string> {
    set p | p in s
  }

  lemma {:induction false} ElementsSize(s: seq<string>)
    requires forall i, j :: 0 <= i < j < |s| ==> s[i] != s[j]
    ensures |Elements(s)| == |s|
  {
    if s != [] {
      var n := |s| - 1;
      ElementsSize(s[..n]);
      assert s[n] !in s[..n];
      assert s == s[..n] + [s[n]];
      assert Elements(s) == Elements(s[..n]) + {s[n]};
    }
  }

  // ---------- the whole run ----------

  /** The files a run looks at. */
  ghost function Changed(idx: Indexed, disk: Disk): set<string> {
    set p | p in disk && IsChanged(HashesOf(idx), disk, p)
  }

  /** What the summary of a run says: every file found is indexed, up to date, listed as an error, or has panicked,
      which the summary does not show. */
  ghost predicate SummaryOf(idx: Indexed, disk: Disk, summary: IndexSummary) {
    && summary.filesProcessed == |disk|
    && summary.filesIndexed == |Those(disk, Changed(idx, disk), Indexes)|
    && summary.errors == |Those(disk, Changed(idx, disk), Errs)|
    && summary.filesProcessed == summary.filesIndexed + summary.filesSkipped + summary.errors
                                 + |Those(disk, Changed(idx, disk), Panics)|
  }

  /** Lines 69-91. `idx` are the files the store was filled with before; nothing in the program holds it. `scanned`
      is what the walk of the directory finds, nothing if it fails. */
  method IndexFullCodebase(store: Store, cfg: Config, disk: Disk, scanned: Wrappers.Option<seq<string>>,
                           ghost idx: Indexed, progress: (nat, nat, string) -> string, completed: nat -> string)
    returns (summary: IndexSummary, ok: bool)
    requires InState(store, cfg, idx) && (scanned.Some? ==> ListsDisk(scanned.value, disk))
    modifies store`collection, store`parsedCache, store.bm25
    ensures store.bm25 == old(store.bm25)
    ensures TouchesOnly(cfg.root, old(store.collection), store.collection)
    ensures ok == scanned.Some?
    ensures ok ==> InState(store, cfg, After(idx, disk)) && SummaryOf(idx, disk, summary)
    ensures ok ==> Leaves(cfg, store.collection, idx, disk)
    ensures !ok ==> InState(store, cfg, idx) && summary == IndexSummary(0, 0, 0, 0)
  {
    ghost var base := store.collection;
    TouchesOnlySelf(cfg.root, base);
    WriteStatus(store, cfg, "Scanning files and cleaning index...", idx, base);
    if scanned.None? {
      return IndexSummary(0, 0, 0, 0), false;
    }
    summary := IndexFiles(store, cfg, disk, scanned.value, idx, progress, completed, base);
    RunLeaves(cfg, store.collection, idx, disk);
    ok := true;
  }

  /** Lines 77-90. */
  method IndexFiles(store: Store, cfg: Config, disk: Disk, files: seq<string>, ghost idx: Indexed,
                    progress: (nat, nat, string) -> string, completed: nat -> string, ghost base: Collection)
    returns (summary: IndexSummary)
    requires InState(store, cfg, idx) && TouchesOnly(cfg.root, base, store.collection) && ListsDisk(files, disk)
    modifies store`collection, store`parsedCache, store.bm25
    ensures store.bm25 == old(store.bm25)
    ensures InState(store, cfg, After(idx, disk)) && TouchesOnly(cfg.root, base, store.collection)
    ensures SummaryOf(idx, disk, summary)
  {
    var hashMapping := ReadHashes(store, cfg, idx);
    var toIndex, skipped := DiscoverFilesToIndex(disk, files, hashMapping);
    DiscoveredChanged(idx, disk, files);
    CleanupStaleFiles(store, cfg, disk, files, hashMapping, idx, base);
    ReindexedChanged(idx, disk, Changed(idx, disk));
    ghost var changed := Changed(idx, disk);
    var indexed, errors := 0, 0;
    if |toIndex| == 0 {
      WriteStatus(store, cfg, completed(skipped), Kept(idx, disk), base);
      ReindexedNone(Kept(idx, disk), disk);
      NothingCounted(disk, toIndex);
    } else {
      indexed, errors := ProcessIndexing(store, cfg, disk, toIndex, Kept(idx, disk), progress, base);
    }
    summary := IndexSummary(|files|, indexed, skipped, errors);
    Summarized(idx, disk, files, toIndex, summary);
  }

  lemma NothingCounted(disk: Disk, toIndex: seq<string>)
    requires toIndex == []
    ensures Elements(toIndex) == {} && Counted(disk, Elements(toIndex), 0, 0)
  {
    assert Those(disk, {}, Indexes) == {} && Those(disk, {}, Errs) == {};
  }

  lemma DiscoveredChanged(idx: Indexed, disk: Disk, files: seq<string>)
    requires ListsDisk(files, disk)
    ensures Elements(ChangedFiles(HashesOf(idx), disk, files)) == Changed(idx, disk)
    ensures |ChangedFiles(HashesOf(idx), disk, files)| == |Changed(idx, disk)|
    ensures forall p :: p in ChangedFiles(HashesOf(idx), disk, files) ==> p in disk
  {
    ChangedFilesFacts(HashesOf(idx), disk, files);
    ElementsSize(ChangedFiles(HashesOf(idx), disk, files));
  }

  lemma Summarized(idx: Indexed, disk: Disk, files: seq<string>, toIndex: seq<string>, summary: IndexSummary)
    requires ListsDisk(files, disk) && |toIndex| == |Changed(idx, disk)|
    requires Counted(disk, Changed(idx, disk), summary.filesIndexed, summary.errors)
    requires summary.filesProcessed == |files| && summary.filesSkipped + |toIndex| == |files|
    ensures SummaryOf(idx, disk, summary)
  {
    ElementsSize(files);
    assert Elements(files) == disk.Keys;
    ThreeKinds(disk, Changed(idx, disk));
  }

  /** Store.GetPathHashMapping on a store in this state. */
  method ReadHashes(store: Store, cfg: Config, ghost idx: Indexed) returns (mapping: map<string, string>)
    requires ProjectState(cfg, store.collection, idx)
    ensures mapping == HashesOf(idx)
  {
    mapping := store.GetPathHashMapping(cfg.root);
    ghost var col := store.collection;
    forall id | id in col ensures id in Matching(col, MetaFilter(cfg.root)) <==> IsMeta(cfg.root, col, id) {
      MetaFilterMeaning(col[id], cfg.root);
    }
    MappingIsHashes(cfg, col, idx, mapping);
  }

  lemma MetaFilterMeaning(doc: Doc, root: string)
    ensures MatchesFilter(doc, MetaFilter(root)) <==>
            Field(doc.meta, "project_id") == root && Field(doc.meta, "type") == "file_meta"
  {
    assert "project_id" in MetaFilter(root) && "type" in MetaFilter(root);
  }
}
