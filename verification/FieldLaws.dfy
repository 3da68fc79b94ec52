/** Which fields of a record can be searched for (internal/db/store.go, lines 127-157): its tokens are those of its
    content, name, path, symbols and calls, each on its own. */
module FieldLaws {
  import opened Bm25
  import opened Identifiers
  import opened SearchLimits
  import opened StoreModel
  import opened TokenLaws
  import opened Wrappers
  import Text

  /** White space ends a word, as in Unicode. */
  ghost predicate SpaceEndsWords(env: Env) {
    !IsWordRune(env.u, ' ') && forall c :: env.isSpace(c) ==> !IsWordRune(env.u, c)
  }

  // ---------- words ----------

  lemma {:induction false} WordsOfTrimmed(env: Env, v: string)
    requires SpaceEndsWords(env)
    ensures Words(env.u, Text.TrimSpace(env.isSpace, v)) == Words(env.u, v)
    decreases |v|
  {
    if v == "" {
    } else if env.isSpace(v[0]) {
      WordsSplit(env.u, "", v[0], v[1..]);
      assert "" + [v[0]] + v[1..] == v;
      WordsOfTrimmed(env, v[1..]);
    } else if env.isSpace(v[|v|-1]) {
      var n := |v| - 1;
      WordsSplit(env.u, v[..n], v[n], "");
      assert v[..n] + [v[n]] + "" == v;
      WordsOfTrimmed(env, v[..n]);
    }
  }

  lemma {:induction false} TokensOfConcat(u: CharClasses, a: seq<string>, b: seq<string>)
    ensures TokensOf(u, a + b) == TokensOf(u, a) + TokensOf(u, b)
  {
    if b == [] {
      assert a + b == a;
    } else {
      var n := |b| - 1;
      assert (a + b)[..|a + b|-1] == a + b[..n] && (a + b)[|a + b|-1] == b[n];
      TokensOfConcat(u, a, b[..n]);
    }
  }

  // ---------- fields ----------

  /** The tokens of several texts, one after the other. */
  function AllTokens(u: CharClasses, texts: seq<string>): seq<string> {
    if texts == [] then [] else AllTokens(u, texts[..|texts|-1]) + Tokens(u, texts[|texts|-1])
  }

  /** The tokens of a list-valued field: those of its elements, or of its raw text when it parses to none. */
  function ListTokens(env: Env, raw: string): seq<string> {
    if raw == "" then []
    else match env.parse(raw)
      case Some(values) => if values == [] then Tokens(env.u, raw) else AllTokens(env.u, values)
      case None => Tokens(env.u, raw)
  }

  lemma AppendedTokens(env: Env, built: string, value: string)
    requires SpaceEndsWords(env)
    ensures Tokens(env.u, AppendField(env, built, value)) == Tokens(env.u, built) + Tokens(env.u, value)
  {
    var v := Text.TrimSpace(env.isSpace, value);
    WordsOfTrimmed(env, value);
    TokensOfConcat(env.u, Words(env.u, built), Words(env.u, v));
    if v != "" && built != "" {
      WordsSplit(env.u, built, ' ', v);
      assert built + [' '] + v == built + " " + v;
    }
  }

  lemma {:induction false} AppendedAllTokens(env: Env, values: seq<string>)
    requires SpaceEndsWords(env)
    ensures Tokens(env.u, AppendFields(env, "", values)) == AllTokens(env.u, values)
  {
    if values != [] {
      var n := |values| - 1;
      AppendedAllTokens(env, values[..n]);
      AppendedTokens(env, AppendFields(env, "", values[..n]), values[n]);
    }
  }

  lemma {:induction false} AllTokensConcat(u: CharClasses, a: seq<string>, b: seq<string>)
    ensures AllTokens(u, a + b) == AllTokens(u, a) + AllTokens(u, b)
  {
    if b == [] {
      assert a + b == a;
    } else {
      var n := |b| - 1;
      assert (a + b)[..|a + b|-1] == a + b[..n] && (a + b)[|a + b|-1] == b[n];
      AllTokensConcat(u, a, b[..n]);
    }
  }

  lemma ListFieldTokens(env: Env, raw: string)
    ensures AllTokens(env.u, ListField(env, raw)) == ListTokens(env, raw)
  {
    assert [raw][..0] == [];
    assert AllTokens(env.u, [raw]) == [] + Tokens(env.u, raw);
  }

  /** A record is indexed under the tokens of its fields, each as often as the fields have it together. */
  lemma RecordTokens(env: Env, doc: Doc)
    requires SpaceEndsWords(env)
    ensures DocTokens(env)(doc) ==
            Tokens(env.u, doc.content) + Tokens(env.u, Field(doc.meta, "name")) + Tokens(env.u, Field(doc.meta, "path"))
            + ListTokens(env, Field(doc.meta, "symbols")) + ListTokens(env, Field(doc.meta, "calls"))
  {
    var fixed := [doc.content, Field(doc.meta, "name"), Field(doc.meta, "path")];
    var symbols, calls := ListField(env, Field(doc.meta, "symbols")), ListField(env, Field(doc.meta, "calls"));
    AppendedAllTokens(env, fixed + symbols + calls);
    AllTokensConcat(env.u, fixed + symbols, calls);
    AllTokensConcat(env.u, fixed, symbols);
    ListFieldTokens(env, Field(doc.meta, "symbols"));
    ListFieldTokens(env, Field(doc.meta, "calls"));
    ThreeTokens(env.u, fixed[0], fixed[1], fixed[2]);
  }

  lemma ThreeTokens(u: CharClasses, a: string, b: string, c: string)
    ensures AllTokens(u, [a, b, c]) == Tokens(u, a) + Tokens(u, b) + Tokens(u, c)
  {
    assert [a, b, c][..2] == [a, b] && [a, b][..1] == [a] && [a][..0] == [];
    assert AllTokens(u, [a]) == AllTokens(u, []) + Tokens(u, a) == Tokens(u, a);
    assert AllTokens(u, [a, b]) == AllTokens(u, [a]) + Tokens(u, b);
    assert AllTokens(u, [a, b, c]) == AllTokens(u, [a, b]) + Tokens(u, c);
  }

  // ---------- what is found ----------

  /** `text` is the content, name or path of the record, one of its symbols or calls, or the raw text of one of these
      lists when it parses to no element. */
  ghost predicate IsFieldText(env: Env, doc: Doc, text: string) {
    || text == doc.content || text == Field(doc.meta, "name") || text == Field(doc.meta, "path")
    || IsListed(env, Field(doc.meta, "symbols"), text) || IsListed(env, Field(doc.meta, "calls"), text)
  }

  ghost predicate IsListed(env: Env, raw: string, text: string) {
    raw != "" && (if env.parse(raw).Some? && env.parse(raw).value != []
                  then text in env.parse(raw).value else text == raw)
  }

  lemma {:induction false} InAllTokens(u: CharClasses, texts: seq<string>, t: string)
    ensures t in AllTokens(u, texts) <==> exists text :: text in texts && t in Tokens(u, text)
  {
    if texts != [] {
      var n := |texts| - 1;
      InAllTokens(u, texts[..n], t);
      assert texts == texts[..n] + [texts[n]];
      if t in Tokens(u, texts[n]) {
        assert texts[n] in texts;
      }
    }
  }

  lemma InListTokens(env: Env, raw: string, t: string)
    ensures t in ListTokens(env, raw) <==> exists text :: IsListed(env, raw, text) && t in Tokens(env.u, text)
  {
    if raw != "" {
      if env.parse(raw).Some? && env.parse(raw).value != [] {
        InAllTokens(env.u, env.parse(raw).value, t);
        forall text | text in env.parse(raw).value ensures IsListed(env, raw, text) {}
      } else {
        assert IsListed(env, raw, raw);
      }
    }
  }

  lemma InRecordTokens(env: Env, doc: Doc, t: string)
    requires SpaceEndsWords(env)
    ensures t in DocTokens(env)(doc) <==> exists text :: IsFieldText(env, doc, text) && t in Tokens(env.u, text)
  {
    RecordTokens(env, doc);
    InListTokens(env, Field(doc.meta, "symbols"), t);
    InListTokens(env, Field(doc.meta, "calls"), t);
    if t in DocTokens(env)(doc) {
      if t in Tokens(env.u, doc.content) {
        assert IsFieldText(env, doc, doc.content);
      } else if t in Tokens(env.u, Field(doc.meta, "name")) {
        assert IsFieldText(env, doc, Field(doc.meta, "name"));
      } else if t in Tokens(env.u, Field(doc.meta, "path")) {
        assert IsFieldText(env, doc, Field(doc.meta, "path"));
      } else if t in ListTokens(env, Field(doc.meta, "symbols")) {
        var text :| IsListed(env, Field(doc.meta, "symbols"), text) && t in Tokens(env.u, text);
        assert IsFieldText(env, doc, text);
      } else {
        var text :| IsListed(env, Field(doc.meta, "calls"), text) && t in Tokens(env.u, text);
        assert IsFieldText(env, doc, text);
      }
    }
  }

  ghost predicate ShareToken(u: CharClasses, a: string, b: string) {
    exists t :: t in Tokens(u, a) && t in Tokens(u, b)
  }

  /** A scan finds a document exactly if one of its tokens is one of the query's. */
  lemma ScanHas(env: Env, ln: real -> real, col: Collection, query: string, id: string)
    ensures id in ScanScores(env, ln, col, query) <==>
            id in col && exists t :: t in DocTokens(env)(col[id]) && t in Tokens(env.u, query)
  {
    var tok, docs, terms := DocTokens(env), IndexOf(DocTokens(env), col), Tokens(env.u, query);
    IndexEntries(tok, col);
    if id in col {
      var tokens := tok(col[id]);
      CountsAreMultiplicities(tokens);
      if t :| t in tokens && t in terms {
        var i :| 0 <= i < |terms| && terms[i] == t;
        assert terms[i] in docs[id].tf;
        assert Matches(docs, terms, id);
      }
      if id in docs && Matches(docs, terms, id) {
        var i :| 0 <= i < |terms| && terms[i] in docs[id].tf;
        assert terms[i] in tokens && terms[i] in terms;
      }
    }
  }

  /** A record can be found by a query exactly if its content, name, path or one of its symbols or calls shares a token
      with it. */
  lemma FoundIffFieldShares(env: Env, ln: real -> real, col: Collection, query: string, id: string)
    requires SpaceEndsWords(env)
    ensures id in ScanScores(env, ln, col, query) <==>
            id in col && exists text :: IsFieldText(env, col[id], text) && ShareToken(env.u, text, query)
  {
    ScanHas(env, ln, col, query, id);
    if id in col {
      if t :| t in DocTokens(env)(col[id]) && t in Tokens(env.u, query) {
        InRecordTokens(env, col[id], t);
        var text :| IsFieldText(env, col[id], text) && t in Tokens(env.u, text);
        assert ShareToken(env.u, text, query);
      }
      if text :| IsFieldText(env, col[id], text) && ShareToken(env.u, text, query) {
        var t :| t in Tokens(env.u, text) && t in Tokens(env.u, query);
        InRecordTokens(env, col[id], t);
      }
    }
  }

  /** So it is in a store whose index is in step with its collection. */
  lemma SearchableIff(env: Env, ln: real -> real, s: State, query: string, id: string)
    requires SpaceEndsWords(env) && Coherent(DocTokens(env), s) && NoEmptyDoc(s.docs)
    ensures id in Scored(ln, s.docs, Tokens(env.u, query)) <==>
            id in s.col && exists text :: IsFieldText(env, s.col[id], text) && ShareToken(env.u, text, query)
  {
    FoundIffFieldShares(env, ln, s.col, query, id);
  }

  /** The frequency of a token is the number of its occurrences in all fields together. */
  lemma FieldFrequencies(env: Env, col: Collection, id: string, t: string)
    requires SpaceEndsWords(env) && id in IndexOf(DocTokens(env), col)
    ensures var doc := col[id];
            var n := multiset(Tokens(env.u, doc.content))[t] + multiset(Tokens(env.u, Field(doc.meta, "name")))[t]
                     + multiset(Tokens(env.u, Field(doc.meta, "path")))[t]
                     + multiset(ListTokens(env, Field(doc.meta, "symbols")))[t]
                     + multiset(ListTokens(env, Field(doc.meta, "calls")))[t];
            var tf := IndexOf(DocTokens(env), col)[id].tf;
            if n == 0 then t !in tf else t in tf && tf[t] == n
  {
    IndexEntries(DocTokens(env), col);
    RecordTokens(env, col[id]);
    var tokens := DocTokens(env)(col[id]);
    CountsAreMultiplicities(tokens);
    assert t in tokens <==> t in multiset(tokens);
  }
}
