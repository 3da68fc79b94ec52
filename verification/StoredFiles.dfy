/** What is in the store of an indexed file, document by document (internal/indexer/scanner.go, lines 265-363): its
    text, its metadata, and nothing left over. */
module StoredFiles {
  import opened IncrementalIndex
  import opened IndexerModel
  import opened StoreModel

  /** The metadata fields that the indexer sets itself. */
  const OWN_FIELDS := {"path", "project_id", "category", "hash", "type", "updated_at"}

  /** The document has the text of the chunk, the fields of the chunk that the indexer leaves alone,
      and those it sets. */
  ghost predicate HoldsChunk(cfg: Config, path: string, file: File, chunk: Chunk, doc: Doc) {
    && doc.content == chunk.content
    && OWN_FIELDS <= doc.meta.Keys
    && doc.meta["path"] == path && doc.meta["project_id"] == cfg.root && doc.meta["category"] == cfg.category(path)
    && doc.meta["hash"] == file.hash && doc.meta["type"] == "chunk" && doc.meta["updated_at"] == file.updatedAt
    && (forall k :: k !in OWN_FIELDS ==> (k in doc.meta <==> k in chunk.fields))
    && (forall k :: k !in OWN_FIELDS && k in doc.meta ==> doc.meta[k] == chunk.fields[k])
  }

  /** The record that says which version of the file is indexed. */
  ghost predicate HoldsFile(cfg: Config, path: string, file: File, doc: Doc) {
    && doc.content == ""
    && doc.meta.Keys == {"path", "project_id", "hash", "type", "updated_at"}
    && doc.meta["path"] == path && doc.meta["project_id"] == cfg.root
    && doc.meta["hash"] == file.hash && doc.meta["type"] == "file_meta" && doc.meta["updated_at"] == file.updatedAt
  }

  /** The collection has one document for each chunk with an embedding, one for the file, and no other of its chunks. */
  ghost predicate HasFile(cfg: Config, col: Collection, path: string, file: File) {
    var chunks, n := cfg.chunks(path, file.content), EmbeddedChunks(cfg, path, file);
    && (forall i: nat :: i < n ==> ChunkId(cfg.root, path, i) in col
                                   && HoldsChunk(cfg, path, file, chunks[i], col[ChunkId(cfg.root, path, i)]))
    && (forall i: nat :: i >= n ==> ChunkId(cfg.root, path, i) !in col)
    && MetaId(cfg.root, path) in col && HoldsFile(cfg, path, file, col[MetaId(cfg.root, path)])
  }

  ghost predicate HasNothing(cfg: Config, col: Collection, path: string) {
    MetaId(cfg.root, path) !in col && forall i: nat :: ChunkId(cfg.root, path, i) !in col
  }

  /** What a run leaves of every path: the file on disk, if it can be indexed and its hash is new; what there was, if
      its hash is the old one or it cannot be indexed; nothing, if it is gone or was never indexed. */
  ghost predicate Leaves(cfg: Config, col: Collection, idx: Indexed, disk: Disk) {
    && (forall p :: p in disk && Renewed(idx, disk, p) ==> HasFile(cfg, col, p, disk[p].file))
    && (forall p :: p in disk && !Renewed(idx, disk, p) && p in idx ==> HasFile(cfg, col, p, idx[p]))
    && (forall p :: p !in disk || (!Renewed(idx, disk, p) && p !in idx) ==> HasNothing(cfg, col, p))
  }

  /** The file can be indexed and its hash is not the stored one. */
  predicate Renewed(idx: Indexed, disk: Disk, path: string)
    requires path in disk
  {
    disk[path].Readable? && (path in idx ==> idx[path].hash != disk[path].file.hash)
  }

  lemma ChunkHeld(cfg: Config, path: string, file: File, i: nat)
    requires i < EmbeddedChunks(cfg, path, file)
    ensures var chunk := cfg.chunks(path, file.content)[i]; var r := ChunkRecord(cfg, chunk, i, path, file);
      && r in RecordsOf(cfg, path, file) && r.id == ChunkId(cfg.root, path, i)
      && HoldsChunk(cfg, path, file, chunk, r.doc)
  {
    assert RecordsOf(cfg, path, file)[i] == ChunkRecord(cfg, cfg.chunks(path, file.content)[i], i, path, file);
  }

  lemma RecordAt(cfg: Config, path: string, file: File, k: nat)
    requires k < |RecordsOf(cfg, path, file)|
    ensures |RecordsOf(cfg, path, file)| == EmbeddedChunks(cfg, path, file) + 1
    ensures RecordsOf(cfg, path, file)[k].id ==
            if k < EmbeddedChunks(cfg, path, file) then ChunkId(cfg.root, path, k) else MetaId(cfg.root, path)
  {}

  /** No document has the ID of a chunk that is not stored. */
  lemma NoFurtherChunk(cfg: Config, col: Collection, idx: Indexed, path: string, i: nat)
    requires ProjectState(cfg, col, idx) && (path in idx ==> i >= EmbeddedChunks(cfg, path, idx[path]))
    ensures ChunkId(cfg.root, path, i) !in col
  {
    var id := ChunkId(cfg.root, path, i);
    if id in col {
      OwnedIsFileId(cfg.root, path, id);
      var q :| q in idx && Record(id, col[id]) in RecordsOf(cfg, q, idx[q]);
      RecordFacts(cfg, q, idx[q], Record(id, col[id]));
      OwnerUnique(cfg.root, path, q, id);
      var k :| 0 <= k < |RecordsOf(cfg, q, idx[q])| && RecordsOf(cfg, q, idx[q])[k] == Record(id, col[id]);
      RecordAt(cfg, q, idx[q], k);
      if k < EmbeddedChunks(cfg, q, idx[q]) {
        ChunkIdInjective(cfg.root, path, i, q, k);
      } else {
        ChunkIdIsNoMetaId(cfg.root, path, i, q);
      }
      assert false;
    }
  }

  /** Of every indexed file the store has exactly its documents. */
  lemma StateHasFile(cfg: Config, col: Collection, idx: Indexed, path: string)
    requires ProjectState(cfg, col, idx) && path in idx
    ensures HasFile(cfg, col, path, idx[path])
  {
    var file := idx[path];
    forall i: nat | i < EmbeddedChunks(cfg, path, file)
      ensures ChunkId(cfg.root, path, i) in col
      ensures HoldsChunk(cfg, path, file, cfg.chunks(path, file.content)[i], col[ChunkId(cfg.root, path, i)])
    {
      ChunkHeld(cfg, path, file, i);
    }
    forall i: nat | i >= EmbeddedChunks(cfg, path, file) ensures ChunkId(cfg.root, path, i) !in col {
      NoFurtherChunk(cfg, col, idx, path, i);
    }
    MetaHeld(cfg, path, file);
  }

  lemma MetaHeld(cfg: Config, path: string, file: File)
    ensures MetaRecord(cfg, path, file) in RecordsOf(cfg, path, file)
    ensures MetaRecord(cfg, path, file).id == MetaId(cfg.root, path)
    ensures HoldsFile(cfg, path, file, MetaRecord(cfg, path, file).doc)
  {
    MetaRecordIn(cfg, path, file);
  }

  /** Of any other path it has none. */
  lemma StateHasNothingElse(cfg: Config, col: Collection, idx: Indexed, path: string)
    requires ProjectState(cfg, col, idx) && path !in idx
    ensures HasNothing(cfg, col, path)
  {
    forall i: nat ensures ChunkId(cfg.root, path, i) !in col {
      NoFurtherChunk(cfg, col, idx, path, i);
    }
    var id := MetaId(cfg.root, path);
    if id in col {
      OwnedIsFileId(cfg.root, path, id);
      var q :| q in idx && Record(id, col[id]) in RecordsOf(cfg, q, idx[q]);
      RecordFacts(cfg, q, idx[q], Record(id, col[id]));
      OwnerUnique(cfg.root, path, q, id);
      assert false;
    }
  }

  lemma RunLeaves(cfg: Config, col: Collection, idx: Indexed, disk: Disk)
    requires ProjectState(cfg, col, After(idx, disk))
    ensures Leaves(cfg, col, idx, disk)
  {
    var after := After(idx, disk);
    forall p | p in disk && Renewed(idx, disk, p) ensures HasFile(cfg, col, p, disk[p].file) {
      AfterAt(idx, disk, p);
      StateHasFile(cfg, col, after, p);
    }
    forall p | p in disk && !Renewed(idx, disk, p) && p in idx ensures HasFile(cfg, col, p, idx[p]) {
      AfterAt(idx, disk, p);
      StateHasFile(cfg, col, after, p);
    }
    forall p | p !in disk || (!Renewed(idx, disk, p) && p !in idx) ensures HasNothing(cfg, col, p) {
      AfterAt(idx, disk, p);
      StateHasNothingElse(cfg, col, after, p);
    }
  }

  lemma AfterAt(idx: Indexed, disk: Disk, p: string)
    ensures p in After(idx, disk) <==> p in disk && (Renewed(idx, disk, p) || p in idx)
    ensures p in After(idx, disk) ==> After(idx, disk)[p] == if Renewed(idx, disk, p) then disk[p].file else idx[p]
  {
    assert p in HashesOf(idx) <==> p in idx;
  }
}
