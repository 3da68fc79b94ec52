/** What the record store must keep true: the lexical index always stands for the document collection
    (internal/db/store.go). The chromem collection is a map from ID to document with exact metadata filters. */
module StoreModel {
  import opened Identifiers
  import opened Bm25
  import Text
  import opened Wrappers

  type Meta = map<string, string>
  datatype Doc = Doc(content: string, meta: Meta)
  datatype Record = Record(id: string, doc: Doc)
  type Collection = map<string, Doc>

  /** What the store takes from libraries: Unicode tables, white space, and the parsing of a JSON string array. */
  datatype Env = Env(u: CharClasses, isSpace: char -> bool, parse: string -> Option<seq<string>>)

  // ---------- the text a document is indexed under (lines 127-157) ----------

  /** Go reads a missing map key as the empty string. */
  function Field(meta: Meta, key: string): string {
    if key in meta then meta[key] else ""
  }

  function AppendField(env: Env, built: string, value: string): string {
    var v := Text.TrimSpace(env.isSpace, value);
    if v == "" then built else if built != "" then built + " " + v else v
  }

  function AppendFields(env: Env, built: string, values: seq<string>): string {
    if values == [] then built
    else AppendField(env, AppendFields(env, built, values[..|values|-1]), values[|values|-1])
  }

  /** A list-valued field contributes its parsed elements, or its raw text when it does not parse to any. */
  function ListField(env: Env, raw: string): seq<string> {
    if raw == "" then []
    else match env.parse(raw)
      case Some(values) => if values != [] then values else [raw]
      case None => [raw]
  }

  function LexicalText(env: Env, doc: Doc): string {
    AppendFields(env, "", [doc.content, Field(doc.meta, "name"), Field(doc.meta, "path")]
                          + ListField(env, Field(doc.meta, "symbols"))
                          + ListField(env, Field(doc.meta, "calls")))
  }

  /** The tokens a document is indexed under. The lemmas below hold for any such function. */
  type Tokenizer = Doc -> seq<string>

  function DocTokens(env: Env): Tokenizer {
    doc => Tokens(env.u, LexicalText(env, doc))
  }

  // ---------- filters ----------

  type Filter = map<string, string>

  predicate MatchesFilter(doc: Doc, filter: Filter) {
    forall k :: k in filter ==> Field(doc.meta, k) == filter[k]
  }

  function Matching(col: Collection, filter: Filter): set<string> {
    set id | id in col && MatchesFilter(col[id], filter)
  }

  /** path == prefix, or a path below that directory. */
  predicate Under(path: string, prefix: string) {
    path == prefix || prefix + "/" <= path
  }

  function UnderPrefix(col: Collection, prefix: string, projectID: string): set<string> {
    set id | id in col && Field(col[id].meta, "project_id") == projectID && Under(Field(col[id].meta, "path"), prefix)
  }

  // ---------- coherence ----------

  /** The documents rebuildLexicalIndex would index: those with at least one token. */
  ghost function IndexOf(tok: Tokenizer, col: Collection): Docs {
    map id | id in col && tok(col[id]) != [] :: BagOf(tok(col[id]))
  }

  datatype State = State(col: Collection, docs: Docs)

  ghost predicate Coherent(tok: Tokenizer, s: State) {
    s.docs == IndexOf(tok, s.col)
  }

  lemma IndexOfRemove(tok: Tokenizer, col: Collection, ids: set<string>)
    ensures IndexOf(tok, col - ids) == IndexOf(tok, col) - ids
  {}

  // ---------- insertion ----------

  ghost function AddAll(tok: Tokenizer, docs: Docs, batch: seq<Record>): Docs {
    if batch == [] then docs
    else AddDoc(AddAll(tok, docs, batch[..|batch|-1]), batch[|batch|-1].id, tok(batch[|batch|-1].doc))
  }

  ghost predicate InBatch(batch: seq<Record>, id: string) {
    exists i :: 0 <= i < |batch| && batch[i].id == id
  }

  /** AddDocuments writes the batch concurrently: of several records with one ID, any may be the last one written. */
  ghost predicate AddedTo(col: Collection, batch: seq<Record>, col': Collection) {
    && (forall id :: id in col' <==> id in col || InBatch(batch, id))
    && (forall id :: id in col && !InBatch(batch, id) ==> col'[id] == col[id])
    && (forall id :: InBatch(batch, id) ==> exists i :: 0 <= i < |batch| && batch[i] == Record(id, col'[id]))
  }

  /** A batch that keeps the index in step: no record without tokens overwrites an indexed one, and records of the
      batch that share an ID would be indexed alike. */
  ghost predicate BatchSafe(tok: Tokenizer, docs: Docs, batch: seq<Record>) {
    && (forall i :: 0 <= i < |batch| && tok(batch[i].doc) == [] ==> batch[i].id !in docs)
    && (forall i, j :: 0 <= i < |batch| && 0 <= j < |batch| && batch[i].id == batch[j].id ==>
          BagOf(tok(batch[i].doc)) == BagOf(tok(batch[j].doc)))
  }

  /** The last record of a batch that has this ID and at least one token, as an index. */
  ghost function LastIndexed(tok: Tokenizer, batch: seq<Record>, id: string): (r: Option<nat>)
    ensures r.Some? ==> r.value < |batch| && batch[r.value].id == id && tok(batch[r.value].doc) != []
    ensures r.None? ==> forall i :: 0 <= i < |batch| && batch[i].id == id ==> tok(batch[i].doc) == []
  {
    if batch == [] then None
    else
      var n := |batch| - 1;
      if batch[n].id == id && tok(batch[n].doc) != [] then Some(n)
      else
        assert forall i :: 0 <= i < n ==> batch[..n][i] == batch[i];
        LastIndexed(tok, batch[..n], id)
  }

  /** The index after a batch: the last record with tokens decides, and without one the old entry stays. */
  lemma {:induction false} AddAllEntry(tok: Tokenizer, docs: Docs, batch: seq<Record>, id: string)
    ensures var last := LastIndexed(tok, batch, id);
            var docs' := AddAll(tok, docs, batch);
            if last.Some? then id in docs' && docs'[id] == BagOf(tok(batch[last.value].doc))
            else (id in docs' <==> id in docs) && (id in docs ==> docs'[id] == docs[id])
  {
    if batch != [] {
      AddAllEntry(tok, docs, batch[..|batch|-1], id);
    }
  }

  /** A safe batch keeps coherence whatever order the writes finish in. */
  lemma SafeBatchKeepsCoherence(tok: Tokenizer, s: State, batch: seq<Record>, col': Collection)
    requires Coherent(tok, s) && BatchSafe(tok, s.docs, batch) && AddedTo(s.col, batch, col')
    ensures Coherent(tok, State(col', AddAll(tok, s.docs, batch)))
  {
    var docs' := AddAll(tok, s.docs, batch);
    forall id ensures id in docs' <==> id in IndexOf(tok, col')
              ensures id in docs' ==> docs'[id] == IndexOf(tok, col')[id]
    {
      SafeEntry(tok, s, batch, col', id);
    }
    assert docs' == IndexOf(tok, col');
  }

  lemma SafeEntry(tok: Tokenizer, s: State, batch: seq<Record>, col': Collection, id: string)
    requires Coherent(tok, s) && BatchSafe(tok, s.docs, batch) && AddedTo(s.col, batch, col')
    ensures id in AddAll(tok, s.docs, batch) <==> id in IndexOf(tok, col')
    ensures id in IndexOf(tok, col') ==> AddAll(tok, s.docs, batch)[id] == IndexOf(tok, col')[id]
  {
    AddAllEntry(tok, s.docs, batch, id);
    var last := LastIndexed(tok, batch, id);
    assert last.Some? ==> InBatch(batch, id);
    if InBatch(batch, id) {
      var i :| 0 <= i < |batch| && batch[i] == Record(id, col'[id]);
      if last.Some? {
        assert BagOf(tok(batch[i].doc)) == BagOf(tok(batch[last.value].doc));
      }
    }
  }

  /** Writing the batch one by one is one of the possible outcomes of AddDocuments. */
  ghost function PutAll(col: Collection, batch: seq<Record>): Collection {
    if batch == [] then col
    else PutAll(col, batch[..|batch|-1])[batch[|batch|-1].id := batch[|batch|-1].doc]
  }

  lemma {:induction false} PutAllIsAdded(col: Collection, batch: seq<Record>)
    ensures AddedTo(col, batch, PutAll(col, batch))
  {
    if batch != [] {
      var n := |batch| - 1;
      var prior := batch[..n];
      PutAllIsAdded(col, prior);
      var col' := PutAll(col, batch);
      assert forall i :: 0 <= i < n ==> prior[i] == batch[i];
      forall id ensures InBatch(batch, id) <==> InBatch(prior, id) || id == batch[n].id {
        if InBatch(prior, id) {
          var i :| 0 <= i < |prior| && prior[i].id == id;
          assert batch[i].id == id;
        }
      }
      forall id | InBatch(batch, id) ensures exists i :: 0 <= i < |batch| && batch[i] == Record(id, col'[id]) {
        if id == batch[n].id {
          assert batch[n] == Record(id, col'[id]);
        } else {
          var i :| 0 <= i < |prior| && prior[i] == Record(id, PutAll(col, prior)[id]);
          assert batch[i] == Record(id, col'[id]);
        }
      }
    }
  }

  lemma SingleAdded(col: Collection, r: Record, col': Collection)
    requires AddedTo(col, [r], col')
    ensures col' == col[r.id := r.doc]
  {
    assert InBatch([r], r.id) by {
      assert [r][0].id == r.id;
    }
    forall id ensures InBatch([r], id) <==> id == r.id {}
  }

  /** So is the outcome where record `k` is the last one written of those with its ID. */
  lemma ChosenIsAdded(col: Collection, batch: seq<Record>, k: nat)
    requires k < |batch|
    ensures AddedTo(col, batch, PutAll(col, batch)[batch[k].id := batch[k].doc])
  {
    PutAllIsAdded(col, batch);
    var col' := PutAll(col, batch)[batch[k].id := batch[k].doc];
    forall id | InBatch(batch, id) ensures exists i :: 0 <= i < |batch| && batch[i] == Record(id, col'[id]) {
      if id == batch[k].id {
        assert batch[k] == Record(id, col'[id]);
      }
    }
  }

  /** Insert keeps the index in step with the collection, whatever order the writes finish in, exactly for safe
      batches: a caller can check the condition before the call. */
  lemma InsertCoherentIff(tok: Tokenizer, s: State, batch: seq<Record>)
    requires Coherent(tok, s)
    ensures BatchSafe(tok, s.docs, batch) <==>
            forall col' :: AddedTo(s.col, batch, col') ==> Coherent(tok, State(col', AddAll(tok, s.docs, batch)))
  {
    if BatchSafe(tok, s.docs, batch) {
      forall col' | AddedTo(s.col, batch, col') ensures Coherent(tok, State(col', AddAll(tok, s.docs, batch))) {
        SafeBatchKeepsCoherence(tok, s, batch, col');
      }
    } else {
      var col' := UnsafeOutcome(tok, s, batch);
    }
  }

  lemma UnsafeOutcome(tok: Tokenizer, s: State, batch: seq<Record>) returns (col': Collection)
    requires Coherent(tok, s) && !BatchSafe(tok, s.docs, batch)
    ensures AddedTo(s.col, batch, col') && !Coherent(tok, State(col', AddAll(tok, s.docs, batch)))
  {
    var docs' := AddAll(tok, s.docs, batch);
    if i :| 0 <= i < |batch| && tok(batch[i].doc) == [] && batch[i].id in s.docs {
      ChosenIsAdded(s.col, batch, i);
      AddAllEntry(tok, s.docs, batch, batch[i].id);
      col' := PutAll(s.col, batch)[batch[i].id := batch[i].doc];
      assert batch[i].id in docs' && batch[i].id !in IndexOf(tok, col');
    } else {
      var i, j :| 0 <= i < |batch| && 0 <= j < |batch| && batch[i].id == batch[j].id &&
                  BagOf(tok(batch[i].doc)) != BagOf(tok(batch[j].doc));
      ChosenIsAdded(s.col, batch, i);
      ChosenIsAdded(s.col, batch, j);
      var col := PutAll(s.col, batch);
      var x, y := IndexOf(tok, col[batch[i].id := batch[i].doc]), IndexOf(tok, col[batch[i].id := batch[j].doc]);
      assert batch[i].id in x <==> tok(batch[i].doc) != [];
      assert batch[i].id in y <==> tok(batch[j].doc) != [];
      var ci, cj := col[batch[i].id := batch[i].doc], col[batch[j].id := batch[j].doc];
      col' := if docs' == IndexOf(tok, ci) then cj else ci;
    }
  }

  // ---------- whole runs ----------

  datatype Op =
    | OpInsert(batch: seq<Record>)
    | OpDelete(filter: Filter)                            // DeleteByPath and ClearProject
    | OpDeletePrefix(prefix: string, projectID: string)
    | OpSetStatus(projectID: string, status: string)
    | OpReconnect

  function PathFilter(path: string, projectID: string): Filter {
    map["path" := path, "project_id" := projectID]
  }

  function ProjectFilter(projectID: string): Filter {
    map["project_id" := projectID]
  }

  function StatusFilter(projectID: string): Filter {
    map["type" := "project_status", "project_id" := projectID]
  }

  function StatusRecord(projectID: string, status: string): Record {
    Record("status:" + projectID, Doc(status, map["type" := "project_status", "project_id" := projectID]))
  }

  function Deleted(s: State, ids: set<string>): State {
    State(s.col - ids, s.docs - ids)
  }

  ghost predicate Inserted(tok: Tokenizer, s: State, batch: seq<Record>, s': State) {
    AddedTo(s.col, batch, s'.col) && s'.docs == AddAll(tok, s.docs, batch)
  }

  /** One operation of the store, seen on the collection and on what the index stands for. */
  ghost predicate Step(tok: Tokenizer, s: State, op: Op, s': State) {
    match op
    case OpInsert(batch) => Inserted(tok, s, batch, s')
    case OpDelete(filter) => s' == Deleted(s, Matching(s.col, filter))
    case OpDeletePrefix(prefix, pid) => s' == Deleted(s, UnderPrefix(s.col, prefix, pid))
    case OpSetStatus(pid, status) =>
      Inserted(tok, Deleted(s, Matching(s.col, StatusFilter(pid))), [StatusRecord(pid, status)], s')
    case OpReconnect => s'.col == s.col && s'.docs == IndexOf(tok, s.col)
  }

  /** What a caller must see to: inserted batches are safe where they are inserted. */
  ghost predicate SafeOp(tok: Tokenizer, s: State, op: Op) {
    match op
    case OpInsert(batch) => BatchSafe(tok, s.docs, batch)
    case OpSetStatus(pid, status) =>
      BatchSafe(tok, Deleted(s, Matching(s.col, StatusFilter(pid))).docs, [StatusRecord(pid, status)])
    case _ => true
  }

  lemma StepKeepsCoherence(tok: Tokenizer, s: State, op: Op, s': State)
    requires Coherent(tok, s) && Step(tok, s, op, s') && SafeOp(tok, s, op)
    ensures Coherent(tok, s')
  {
    match op
    case OpInsert(batch) => SafeBatchKeepsCoherence(tok, s, batch, s'.col);
    case OpDelete(filter) => IndexOfRemove(tok, s.col, Matching(s.col, filter));
    case OpDeletePrefix(prefix, pid) => IndexOfRemove(tok, s.col, UnderPrefix(s.col, prefix, pid));
    case OpSetStatus(pid, status) =>
      var ids := Matching(s.col, StatusFilter(pid));
      IndexOfRemove(tok, s.col, ids);
      SafeBatchKeepsCoherence(tok, Deleted(s, ids), [StatusRecord(pid, status)], s'.col);
    case OpReconnect =>
  }

  /** A run: states and the operations between them. */
  ghost predicate IsRun(tok: Tokenizer, states: seq<State>, ops: seq<Op>) {
    && |states| == |ops| + 1
    && Coherent(tok, states[0])
    && forall i :: 0 <= i < |ops| ==> Step(tok, states[i], ops[i], states[i+1]) && SafeOp(tok, states[i], ops[i])
  }

  /** At every point of every run the incrementally kept index is the one a reconnect would rebuild. */
  lemma {:induction false} CoherentThroughoutRun(tok: Tokenizer, states: seq<State>, ops: seq<Op>, i: nat)
    requires IsRun(tok, states, ops) && i < |states|
    ensures Coherent(tok, states[i])
  {
    if i > 0 {
      CoherentThroughoutRun(tok, states, ops, i - 1);
      StepKeepsCoherence(tok, states[i-1], ops[i-1], states[i]);
    }
  }
}
