/** What deleting by prefix and reading the status mean to a caller (internal/db/store.go, lines 504-531 and
    689-740). */
module StoreLaws {
  import opened StoreModel
  import opened Wrappers

  // ---------- paths ----------

  /** The parts of a path between slashes. */
  function Segments(path: string): (parts: seq<string>)
    ensures parts != []
    decreases |path|
  {
    if path == "" then [""]
    else
      var rest := Segments(path[1..]);
      if path[0] == '/' then [""] + rest else [[path[0]] + rest[0]] + rest[1..]
  }

  function Joined(parts: seq<string>): string
    requires parts != []
  {
    if |parts| == 1 then parts[0] else parts[0] + "/" + Joined(parts[1..])
  }

  /** One more rune in front: it opens a new part or begins the first one. */
  function Before(c: char, parts: seq<string>): seq<string>
    requires parts != []
  {
    if c == '/' then [""] + parts else [[c] + parts[0]] + parts[1..]
  }

  lemma SegmentsCons(c: char, path: string)
    ensures Segments([c] + path) == Before(c, Segments(path))
  {
    assert ([c] + path)[1..] == path;
  }

  lemma JoinedBefore(c: char, parts: seq<string>)
    requires parts != []
    ensures Joined(Before(c, parts)) == [c] + Joined(parts)
  {
    var all := Before(c, parts);
    if c == '/' {
      assert all[1..] == parts;
    } else if |parts| > 1 {
      assert all[1..] == parts[1..];
      assert [c] + parts[0] + "/" + Joined(parts[1..]) == [c] + (parts[0] + "/" + Joined(parts[1..]));
    }
  }

  lemma {:induction false} JoinedSegments(path: string)
    ensures Joined(Segments(path)) == path
    decreases |path|
  {
    if path != "" {
      JoinedSegments(path[1..]);
      SegmentsCons(path[0], path[1..]);
      JoinedBefore(path[0], Segments(path[1..]));
      assert path == [path[0]] + path[1..];
    }
  }

  lemma BeforeConcat(c: char, a: seq<string>, b: seq<string>)
    requires a != []
    ensures Before(c, a + b) == Before(c, a) + b
  {
    assert (a + b)[1..] == a[1..] + b;
  }

  /** A slash separates the parts before and behind it. */
  lemma {:induction false} SegmentsSplit(a: string, b: string)
    ensures Segments(a + "/" + b) == Segments(a) + Segments(b)
    decreases |a|
  {
    if a == "" {
      SegmentsCons('/', b);
      assert a + "/" + b == ['/'] + b;
    } else {
      SegmentsSplit(a[1..], b);
      SegmentsCons(a[0], a[1..] + "/" + b);
      SegmentsCons(a[0], a[1..]);
      BeforeConcat(a[0], Segments(a[1..]), Segments(b));
      assert a == [a[0]] + a[1..];
      assert a + "/" + b == [a[0]] + (a[1..] + "/" + b);
    }
  }

  lemma {:induction false} JoinedConcat(a: seq<string>, b: seq<string>)
    requires a != [] && b != []
    ensures Joined(a + b) == Joined(a) + "/" + Joined(b)
  {
    if |a| == 1 {
      assert (a + b)[1..] == b;
    } else {
      assert (a + b)[1..] == a[1..] + b;
      JoinedConcat(a[1..], b);
    }
  }

  /** Under a directory means: its parts come first. A path that only begins with the same letters is not under it. */
  lemma UnderIffSegments(path: string, prefix: string)
    ensures Under(path, prefix) <==> Segments(prefix) <= Segments(path)
  {
    if path != prefix && prefix + "/" <= path {
      var rest := path[|prefix| + 1..];
      assert path == prefix + "/" + rest;
      SegmentsSplit(prefix, rest);
    }
    if Segments(prefix) <= Segments(path) {
      JoinedSegments(path);
      JoinedSegments(prefix);
      var more := Segments(path)[|Segments(prefix)|..];
      assert Segments(path) == Segments(prefix) + more;
      if more == [] {
        assert Segments(path) == Segments(prefix);
      } else {
        JoinedConcat(Segments(prefix), more);
        assert path == prefix + "/" + Joined(more);
      }
    }
  }

  /** After deleting by prefix a record is gone exactly if it belongs to the project and its path is under it. */
  lemma DeletedByPrefix(tok: Tokenizer, s: State, prefix: string, pid: string, s': State, id: string)
    requires Step(tok, s, OpDeletePrefix(prefix, pid), s') && id in s.col
    ensures id !in s'.col <==>
            Field(s.col[id].meta, "project_id") == pid && Segments(prefix) <= Segments(Field(s.col[id].meta, "path"))
    ensures id in s'.col ==> s'.col[id] == s.col[id]
  {
    UnderIffSegments(Field(s.col[id].meta, "path"), prefix);
  }

  // ---------- the status ----------

  /** What GetStatus can answer: the content of some status record of the project, nothing if there is none. */
  ghost predicate StatusRead(col: Collection, pid: string, status: Option<string>) {
    match status
    case None => forall id :: id in col ==> !IsStatus(col[id], pid)
    case Some(text) => exists id :: id in col && IsStatus(col[id], pid) && col[id].content == text
  }

  predicate IsStatus(doc: Doc, pid: string) {
    Field(doc.meta, "type") == "project_status" && Field(doc.meta, "project_id") == pid
  }

  lemma StatusFilterIs(doc: Doc, pid: string)
    ensures MatchesFilter(doc, StatusFilter(pid)) <==> IsStatus(doc, pid)
  {
    assert "type" in StatusFilter(pid) && "project_id" in StatusFilter(pid);
  }

  /** The collection after a status was set: no other status of the project is left. */
  lemma StatusSet(tok: Tokenizer, s: State, pid: string, status: string, s': State)
    requires Step(tok, s, OpSetStatus(pid, status), s')
    ensures var r := StatusRecord(pid, status);
      && r.id in s'.col && s'.col[r.id] == r.doc
      && (forall id :: id != r.id ==> (id in s'.col <==> id in s.col && !IsStatus(s.col[id], pid)))
      && (forall id :: id != r.id && id in s'.col ==> s'.col[id] == s.col[id])
  {
    var r, gone := StatusRecord(pid, status), Matching(s.col, StatusFilter(pid));
    SingleAdded(s.col - gone, r, s'.col);
    forall id | id in s.col ensures id in gone <==> IsStatus(s.col[id], pid) {
      StatusFilterIs(s.col[id], pid);
    }
  }

  /** A status that was set is read back, whatever the project's status was before. */
  lemma StatusReadBack(tok: Tokenizer, s: State, pid: string, status: string, s': State, read: Option<string>)
    requires Step(tok, s, OpSetStatus(pid, status), s')
    ensures StatusRead(s'.col, pid, read) <==> read == Some(status)
  {
    StatusSet(tok, s, pid, status, s');
    var r := StatusRecord(pid, status);
    StatusFilterIs(r.doc, pid);
    assert IsStatus(s'.col[r.id], pid) && s'.col[r.id].content == status;
  }

  /** Another record of the project's status says the same. */
  ghost predicate SaidElsewhere(col: Collection, id: string, pid: string)
    requires id in col
  {
    exists k :: k in col && k != id && IsStatus(col[k], pid) && col[k].content == col[id].content
  }

  /** A collection whose records of the project's status are the old ones without this one. */
  ghost predicate WithoutStatus(col: Collection, col': Collection, id: string, pid: string) {
    forall k :: (k in col' && IsStatus(col'[k], pid) <==> k in col && k != id && IsStatus(col[k], pid))
                && (k in col' && IsStatus(col'[k], pid) && k in col ==> col'[k] == col[k])
  }

  lemma SameStatusIff(col: Collection, col': Collection, id: string, pid: string)
    requires WithoutStatus(col, col', id, pid)
    ensures (forall read :: StatusRead(col', pid, read) <==> StatusRead(col, pid, read)) <==>
            (id in col && IsStatus(col[id], pid) ==> SaidElsewhere(col, id, pid))
  {
    if id in col && IsStatus(col[id], pid) && !SaidElsewhere(col, id, pid) {
      assert StatusRead(col, pid, Some(col[id].content));
      assert !StatusRead(col', pid, Some(col[id].content));
    }
  }

  /** Another project's status stays as it is, exactly unless the record now overwritten was the only one to say it. */
  lemma OtherStatusStaysIff(tok: Tokenizer, s: State, pid: string, status: string, s': State, other: string)
    requires Step(tok, s, OpSetStatus(pid, status), s') && other != pid
    ensures var id := StatusRecord(pid, status).id;
            (forall read :: StatusRead(s'.col, other, read) <==> StatusRead(s.col, other, read)) <==>
            (id in s.col && IsStatus(s.col[id], other) ==> SaidElsewhere(s.col, id, other))
  {
    StatusSet(tok, s, pid, status, s');
    assert !IsStatus(StatusRecord(pid, status).doc, other);
    SameStatusIff(s.col, s'.col, StatusRecord(pid, status).id, other);
  }
}
