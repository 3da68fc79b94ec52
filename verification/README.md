# Verified model of the search, indexing and protocol core

This project states, in Dafny, what the repository's self-contained algorithms and state machines do, and proves
properties of them over all inputs and all runs. Code that changes objects or arrays step by step is modelled by
classes, methods and loops with the same branches; each is proved against a specification function, and the theorems
are proved about those functions. `dafny verify dfyconfig.toml` checks everything.

## What is modelled

**Lexical index** (`Identifiers`, `TokenLaws`, `Ranking`, `Bm25`, `LexicalLaws`, `LexicalIndex`). The BM25 index
stands for a map from document to token multiset (`Index.docs`). `Add` and `Remove` keep postings, lengths, count and
average length in step with that map; two histories with the same final map leave the same index up to posting order;
`Search` returns a best-first selection of the top k documents, each scored as a scan of the map would score it. A
term in fewer documents, a document with more occurrences and a shorter document score strictly more. The tokens of a
text are exactly its words and their fragments in lower case. A text without tokens is not indexed and does not remove
an older entry of the same document (lines 45-48 of bm25.go): the map says so too.

**Record store** (`StoreModel`, `FieldLaws`, `StoreLaws`, `SearchModel`, `LexicalQuery`, `SearchLimits`,
`SearchExample`, `Fusion`, `FusionLaws`, `RecordStore`). The chromem collection is a map from ID to document with
exact metadata filters. At every point of every run of inserts, deletes, status writes and reconnects, the
incrementally kept index is the one `rebuildLexicalIndex` would build, provided batches are safe; and an insert keeps
this, whatever order the concurrent writes finish in, exactly when its batch is safe: the records written under one ID
agree on their tokens, and no indexed document is replaced by one without tokens. `DeleteByPrefix` is out of step in
the middle of its loop, and `MidPrefix` says how. `SearchOutcome` says what a lexical search can return; with the
index in step, an unfiltered one returns the best of a scan of the collection. Three times as many results are fetched
as asked for, so that filtering does not starve the result (lines 207-208 of store.go). That holds for all
collections, queries and filters exactly when the fetch takes in the whole collection, `3 * topK >= count`; for every
smaller positive topK there is a collection on which every outcome is empty although a matching document passes.
Results are free of repetitions exactly when no project is named twice or at most one record is asked for. A record
can be found by a query exactly if its content, name, path or one of its symbols or calls shares a token with it.
Reciprocal rank fusion respects dominance, and what weights and boosts do to the order is said in numbers.

**Incremental indexer** (`Decimal`, `IndexerModel`, `IncrementalIndex`, `StoredFiles`, `Indexer`). What a run of
`IndexFullCodebase` leaves is determined, whatever order the workers finish in and however the batches fall, and it
touches no record of another project: for every path, the text and the fields of each chunk, the record of the file,
and nothing more. It is the same as indexing from scratch, up to modification times, exactly if every indexed file
still on disk can be read and, where its hash is unchanged, is stored as it would be stored now; if hashes tell
contents apart, that means embeddings came back for as many of its chunks as they would now. A failed embedding is
never made up for, since the file's record already has its hash. A second run finds nothing to do. A panic while a
file is processed leaves that file as it was and out of the summary's numbers.

**Cache** (`LruModel`, `LruRecency`, `LruCache`). Map, recency list and expiry table always agree; the cache behaves
as a recency sequence with expiry; under the same timed operations a smaller cache's sequence is part of a larger
one's, so a hit in the smaller is a hit in the larger with the same value; and a hit is never stale. While nothing is
deleted or expires, a key is answered exactly if fewer than the capacity's number of other keys were set or read since
it was.

**Rate limiter** (`RateModel`, `RateLaws`, `LimiterModel`, `LimiterFlight`, `RateLimiter`). In every window of every
run the tokens granted are at most burst + rate * length (plus a burst for each reset inside), and a request is
granted whenever that leaves room for it; refused requests and peeks change no decision; cleanup changes no decision
exactly when a bucket can fill within the cleanup age; keys do not influence each other. A request looks its bucket up
before it draws from it, and a cleanup in between can drop the bucket: with such requests in flight a key is granted
what a bucket of its own would grant, and the strays, which draw from a dropped bucket. There are none if no cleanup
comes in between, and one is enough to overfill a burst.

**Language-server client** (`LspProtocol`, `LspClient`, `LspFraming`). The request table as a protocol of atomic steps
between taking and releasing the mutex: under any interleaving of calls, answers, cancellations, disconnects, idle
timeouts and stops every id is fresh, every pending channel is open and empty, each channel sees one body or one close
in its life, a waiting caller is registered or can go on at once, and the fate of a call is decided by the first
answer to its id or the first shutdown after it began. A caller takes the mutex to be let in and again to send a
request or notification; the one that starts a server sends it initialize before it lets go. Each of them, and the
reader of a new server, finds the streams closed and panics exactly when a shutdown falls in between and no start
after it. A disconnect reported by whichever reader does no harm exactly when no server runs: the reader of a stopped
server can stop its successor. The runs given for these failures are runs of the code. Framing follows the Language
Server Protocol 3.17, "Base Protocol", "Header Part": reading undoes writing, also with other header fields, exactly
for bodies that can be allocated, and a stream cut anywhere yields exactly the messages that arrived whole.

**Text algorithms** (`Text`, `ChunkModel`, `GapModel`, `MatchRuns`, `Chunker`, `JsonComments`, `Histograms`). Chunking
loses no character that is not white space and makes nothing up; overlapping windows rejoin to the text, and every
match has chunks of its own. The line numbers of gap chunks and of later pieces can be out of order: those of a long
chunk are in order exactly if at least half of the line ends up to the end of each window lie in it, which no chunk of
280800 runes or more has if its first 7200 end a line. Comment stripping is exact erasure, and stripping twice is
stripping once exactly for the texts that one scan accepts, all JSON with comments among them. The exported histogram
agrees with its history. `Wrappers` holds the option type.

## How library behaviour enters

Floating point numbers are reals. The Unicode classes and lower-casing, white space, the natural logarithm, the power
of two, JSON and number parsing, file hashes, the embedder's success, the chunker (for the indexer) and the clock are
parameters; a property that needs something of them (the logarithm is positive above one or increases, white space
ends words, letters are what they are in English, equal hashes mean equal contents) says so in its `requires`. Library
calls of the store succeed, and a metadata key that is missing reads as the empty string, as chromem's filter compares
it. Sorting and map iteration give any permitted order. In the protocol and the framing a character stands for one
byte, and header lines are ASCII; in the text algorithms it stands for one rune.

## Model

| member | source | states |
|---|---|---|
| Identifiers.SplitIdentifier | internal/db/lexical/bm25.go:215-268 | the fragments of an identifier are the texts of its unique division at underscores, case steps, letter/digit steps and ends of capital runs |
| Identifiers.SplitAt | internal/db/lexical/bm25.go:233-266 | one round of the splitting loop: the fragments so far and those still to come always make up the division |
| Identifiers.SpansAreSplit | internal/db/lexical/bm25.go:215-268 | the division covers exactly the runes that are not underscores, in order, and cuts inside a run of them exactly at the break positions |
| Identifiers.SplitUnique | internal/db/lexical/bm25.go:215-268 | there is only one such division, so the description determines the fragments |
| Identifiers.FragmentsAreSpanTexts | internal/db/lexical/bm25.go:221-229 | fragment i is the text of the i-th range of the division |
| Identifiers.FragmentsLossless | internal/db/lexical/bm25.go:215-268 | joining the fragments gives the token without its underscores; no fragment is empty or has one |
| Identifiers.Tokenize | internal/db/lexical/bm25.go:179-200 | the tokens of a text: every word in lower case, followed by those of its fragments that differ from it |
| Identifiers.EveryFragmentIsAToken | internal/db/lexical/bm25.go:185-198 | every word and every fragment of every word of a text is among its tokens, in lower case |
| TokenLaws.WordsLossless | internal/db/lexical/bm25.go:179-183 | the words of a text joined are its letters, digits and underscores, none lost and nothing else kept |
| TokenLaws.WordsSplit | internal/db/lexical/bm25.go:179-183 | any other rune ends a word |
| TokenLaws.OneWord | internal/db/lexical/bm25.go:179-183 | letters, digits and underscores next to each other are one word |
| TokenLaws.TokenIff | internal/db/lexical/bm25.go:185-198 | the tokens of a text are its words and their fragments in lower case, and nothing else |
| TokenLaws.TokensAreLower | internal/db/lexical/bm25.go:185-198 | no token has a rune that lower-casing changes |
| TokenLaws.CaseIsIgnored | internal/db/lexical/bm25.go:185-198 | identifiers that differ in case only share a token |
| TokenLaws.CamelCut | internal/db/lexical/bm25.go:233-266 | a capital after a lower-case rune begins a fragment |
| TokenLaws.DigitCut | internal/db/lexical/bm25.go:233-266 | so does a digit after another rune and another rune after a digit |
| TokenLaws.AcronymCut | internal/db/lexical/bm25.go:233-266 | so does the last of several capitals when a lower-case rune follows |
| TokenLaws.UnderscoreCut | internal/db/lexical/bm25.go:233-266 | an underscore separates fragments and belongs to none |
| TokenLaws.Uncut | internal/db/lexical/bm25.go:233-266 | an identifier without any of these is one fragment |
| Ranking.PartialSort | internal/db/lexical/bm25.go:203-213 | in place: a permutation whose first k entries are the largest, in descending order |
| Ranking.TopKOfSorted | internal/db/lexical/bm25.go:163-168 | cutting such a list of all candidates is a best-first top-k selection: distinct, own scores, nothing left out beats what was taken |
| Ranking.SortSlice | internal/db/store.go:270-272 | the library's sort by descending key: some permutation in that order |
| Ranking.PermutationKeepsDistinct | internal/db/store.go:402-404 | sorting neither loses, adds nor repeats an ID |
| Bm25.CountsAreMultiplicities | internal/db/lexical/bm25.go:51-54 | the term counts of a text are the multiplicities of its tokens |
| Bm25.MeanTimes | internal/db/lexical/bm25.go:64-67 | the stored average times the count is exactly the sum of all lengths |
| Bm25.PostingFacts | internal/db/lexical/bm25.go:69-71 | a posting list of a represented map has each document with the term once, with its true frequency, and as many entries as the document frequency |
| Bm25.HistoryIndependence | internal/db/lexical/bm25.go:27-109 | two indexes of the same document map are the same up to the order of postings, whatever led to them |
| Bm25.RepresentsOne | internal/db/lexical/bm25.go:27-109 | an index stands for one document map only: nothing of the map is lost |
| Bm25.RunIsLastWrite | internal/db/lexical/bm25.go:44-109 | after any history a document is present exactly when its last effective operation was an Add, with the tokens of that Add; an Add without tokens is no effective operation |
| Bm25.TfNormBounds | internal/db/lexical/bm25.go:149-152 | a term-frequency factor is positive and below k1 + 1 |
| Bm25.DocFreqBounds | internal/db/lexical/bm25.go:145-146 | the document frequency of a term some document has lies between 1 and the number of documents |
| Bm25.AverageLenPositive | internal/db/lexical/bm25.go:137-152 | an index that is not empty has a positive average length, so the division is defined |
| Bm25.ContributionPositive | internal/db/lexical/bm25.go:146-153 | a query term adds something positive for a document that has it and nothing otherwise |
| Bm25.ScorePositive | internal/db/lexical/bm25.go:135-155 | a score is positive exactly for the documents that share a token with the query |
| LexicalLaws.TermScoreFormula | internal/db/lexical/bm25.go:135-155 | the score of a one-term query in numbers, from the number of documents, the document frequency, the occurrences and the relative length |
| LexicalLaws.RarerTermScoresMore | internal/db/lexical/bm25.go:145-146 | of two terms a document has equally often, the one in fewer documents scores strictly more |
| LexicalLaws.MoreOccurrencesScoreMore | internal/db/lexical/bm25.go:149-152 | of two documents of equal length, the one with more occurrences scores strictly more |
| LexicalLaws.ShorterDocumentScoresMore | internal/db/lexical/bm25.go:149-152 | of two documents with equally many occurrences, the shorter one scores strictly more |
| LexicalLaws.ScoreConcat | internal/db/lexical/bm25.go:139-155 | a query scores what its parts score together |
| LexicalLaws.ScoreOfMore | internal/db/lexical/bm25.go:139-155 | one more term, wherever it stands, adds its own score |
| LexicalIndex.Index.constructor | internal/db/lexical/bm25.go:36-41 | a new index stands for the empty map |
| LexicalIndex.Index.Add | internal/db/lexical/bm25.go:44-72 | the map afterwards has the text's token multiset for the document; unchanged when the text has no token |
| LexicalIndex.Index.CountTerms | internal/db/lexical/bm25.go:51-54 | counts the tokens |
| LexicalIndex.Index.InsertFresh | internal/db/lexical/bm25.go:62-71 | adding a document that is not there |
| LexicalIndex.Index.AddLength | internal/db/lexical/bm25.go:62-67 | lengths, count and average of the larger map |
| LexicalIndex.MeanWith | internal/db/lexical/bm25.go:66-67 | the incremental formula gives the mean of one value more |
| LexicalIndex.Index.AppendPostings | internal/db/lexical/bm25.go:69-71 | posting lists of the larger map, in whatever order the terms come |
| LexicalIndex.Index.Remove | internal/db/lexical/bm25.go:75-79 | the map without the document |
| LexicalIndex.Index.RemoveLocked | internal/db/lexical/bm25.go:81-109 | the same, also when the document is not there |
| LexicalIndex.Index.DropLength | internal/db/lexical/bm25.go:85-94 | lengths, count and average of the smaller map |
| LexicalIndex.MeanWithout | internal/db/lexical/bm25.go:89-94 | the incremental formula gives the mean of the remaining values, zero when none is left |
| LexicalIndex.Index.FilterPostings | internal/db/lexical/bm25.go:96-108 | posting lists of the smaller map: compacted, and dropped when empty |
| LexicalIndex.Compact | internal/db/lexical/bm25.go:97-102 | compaction over the array being read keeps exactly the other documents' postings, in order |
| LexicalIndex.WithoutListsRest | internal/db/lexical/bm25.go:97-107 | without a document's postings a true posting list is the true list of the rest |
| LexicalIndex.Index.Search | internal/db/lexical/bm25.go:118-169 | a best-first top-k selection of the documents sharing a token with the query, each with the score a scan of the document map gives it; LexicalLaws says what that score is and how it orders documents |
| LexicalIndex.Index.ScoreTerm | internal/db/lexical/bm25.go:139-155 | one query term more: the score map is that of the longer query |
| LexicalIndex.Index.ScorePostings | internal/db/lexical/bm25.go:148-154 | walking a posting list adds each of its documents' contribution once |
| LexicalIndex.Index.PostingScore | internal/db/lexical/bm25.go:145-153 | the number added for a posting is the term's contribution read off the document map |
| LexicalIndex.Index.Collect | internal/db/lexical/bm25.go:158-161 | every entry of the score map once |
| LexicalIndex.Index.Size | internal/db/lexical/bm25.go:172-176 | the number of documents of the map |
| LexicalIndex.TermScored | internal/db/lexical/bm25.go:139-155 | scores folded posting by posting are those of the scan |
| LexicalIndex.FragmentIsPosted | internal/db/lexical/bm25.go:44-72 | every fragment of every identifier of an indexed text is a term under which the document is posted, with its number of occurrences |
| StoreModel.AddAllEntry | internal/db/store.go:170-175 | after indexing a batch the last record with tokens decides an ID's entry, and without one the old entry stays |
| StoreModel.SafeBatchKeepsCoherence | internal/db/store.go:160-176 | a safe batch keeps index and collection in step whatever order the writes finish in |
| StoreModel.InsertCoherentIff | internal/db/store.go:160-176 | an insert keeps them in step for every order of the writes exactly when the batch is safe |
| StoreModel.UnsafeOutcome | internal/db/store.go:160-176 | for every unsafe batch, an outcome that is out of step |
| StoreModel.StepKeepsCoherence | internal/db/store.go:88-176 | every store operation keeps them in step |
| StoreModel.CoherentThroughoutRun | internal/db/store.go:88-176 | at every point of every run the kept index is the one a reconnect would rebuild |
| FieldLaws.RecordTokens | internal/db/store.go:127-157 | a record is indexed under the tokens of its content, name, path, and each parsed symbol and call, or the raw list when it parses to none |
| FieldLaws.FieldFrequencies | internal/db/store.go:127-157 | each with the number of its occurrences in all of these together |
| FieldLaws.ScanHas | internal/db/store.go:189-227 | a scan finds a document exactly if one of its tokens is one of the query's |
| FieldLaws.FoundIffFieldShares | internal/db/store.go:127-157 | that is, exactly if one of these fields shares a token with the query |
| FieldLaws.SearchableIff | internal/db/store.go:127-176 | so it is for every store whose index is in step |
| StoreLaws.UnderIffSegments | internal/db/store.go:518-522 | a path counts as under a prefix exactly when the parts of the prefix between slashes are its first parts |
| StoreLaws.DeletedByPrefix | internal/db/store.go:506-531 | a record is gone after deleting by prefix exactly if it belongs to the project and is under it; the others are as they were |
| StoreLaws.StatusSet | internal/db/store.go:689-709 | after a status write no other status of the project is left, and the rest is as it was |
| StoreLaws.StatusReadBack | internal/db/store.go:689-719 | reading the status of a project gives exactly the one set last, whatever it was before |
| StoreLaws.OtherStatusStaysIff | internal/db/store.go:689-719 | another project's status stays as it is exactly unless the record overwritten was the only one to say it |
| SearchModel.FetchKEnough | internal/db/store.go:202-205 | the number fetched lies between min(topK, count) and count |
| SearchModel.SearchExactIff | internal/db/store.go:202-276 | cutting what the filter leaves of a fetch gives the best of the documents that pass exactly when the fetch left enough of them; SearchLimits.FilteredSearchExactIff has the condition on the call |
| SearchModel.UnfilteredSearchExact | internal/db/store.go:202-276 | without filters it is exact |
| SearchModel.LargeSearchExact | internal/db/store.go:202-276 | asked for at least a third of the collection it is exact under any filter |
| SearchModel.Starved | internal/db/store.go:207-212 | when no fetched document passes, nothing is found whatever else would pass |
| SearchModel.SortAndCut | internal/db/store.go:269-276 | sort best first and keep topK |
| SearchModel.UnfilteredLexicalResult | internal/db/store.go:189-283 | an unfiltered LexicalSearch returns the best matches of the whole collection |
| SearchModel.LargeLexicalResult | internal/db/store.go:189-283 | a filtered one for at least a third of the collection returns the best matches that pass |
| LexicalQuery.FetchedPasses | internal/db/store.go:229-249 | the queries list exactly the documents that pass, each once unless a project is named twice |
| LexicalQuery.OutcomeIsLexicalResult | internal/db/store.go:189-283 | every outcome of a search over different projects is the best of the fetched candidates that pass |
| SearchLimits.CoherentSearchIsScan | internal/db/store.go:189-283 | with the index in step, an unfiltered search returns the best of a scan of the collection |
| SearchLimits.FilteredSearchExactIff | internal/db/store.go:202-276 | a filtered search is exact, for all collections of count documents, queries, filters and outcomes, exactly when topK is zero or three times topK is at least count |
| SearchLimits.FilterCanStarve | internal/db/store.go:202-276 | for every other topK, a collection on which the search for the only document of a category, which matches the query, has the empty list as its only outcome |
| SearchLimits.WorstLeftOut | internal/db/store.go:202-209 | a fetch of less than all candidates never takes the one that scores below all others |
| SearchLimits.NeverRepeatsIff | internal/db/store.go:238-276 | for all collections and queries no outcome repeats a record, exactly when no project is named twice or at most one record is asked for |
| SearchExample.OutcomeExists | internal/db/store.go:189-283 | whatever the collection, the scores and the arguments, a search has an outcome |
| SearchExample.WideSearchFindsAll | internal/db/store.go:189-283 | asked for as many records as there are, an unfiltered search in a store in step returns exactly those one of whose fields shares a token with the query |
| SearchExample.RareWordWins | internal/db/store.go:189-283 | of four documents, the only one with a rare word is the only outcome of a search for one record with that word or one that two of the others have |
| Fusion.Fuse | internal/db/store.go:342-353 | each ID's score is the sum of its reciprocal ranks over both lists; the record kept is its last one |
| Fusion.RecordMapEntry | internal/db/store.go:343-353 | the record map has exactly the IDs of both lists, with the last record of each |
| Fusion.BoostAll | internal/db/store.go:361-400 | one scored record per ID, the score multiplied by the record's boost |
| Fusion.Rank | internal/db/store.go:342-412 | distinct IDs from the union, the min(topK, union size) best by boosted score |
| Fusion.RrfOnce | internal/db/store.go:345-353 | an ID that a list has once gets exactly the worth of its rank |
| Fusion.DominanceFused | internal/db/store.go:342-353 | an ID ahead of another in every list the other is in gets strictly more |
| Fusion.DominanceFinal | internal/db/store.go:342-399 | and still after boosting, if its boost is positive and at least the other's |
| Fusion.DominatorComesFirst | internal/db/store.go:342-412 | so whenever the other is returned it is returned before it |
| Fusion.HigherComesFirst | internal/db/store.go:402-410 | a strictly higher score comes first and is not cut before the lower one |
| Fusion.RecencyBoostBounds | internal/db/store.go:373-387 | the recency boost lies between 1 and 1.5 and never falls for a later update |
| FusionLaws.OneList | internal/db/store.go:342-353 | an ID at place i of one list only is worth the weight over 61 + i |
| FusionLaws.BothLists | internal/db/store.go:342-353 | one that both lists have gets both |
| FusionLaws.LastRecordIs | internal/db/store.go:343-353 | the record kept for an ID is the last one of both lists that has it |
| FusionLaws.LexicalBeatsVectorIff | internal/db/store.go:331-400 | when a hit of the lexical list alone outranks one of the vector list alone, by their places and whether the query looks like code |
| FusionLaws.BoostAgainstRankIff | internal/db/store.go:342-400 | a boosted hit outranks another exactly if its boost outweighs the other's by more than their ranks |
| FusionLaws.CodeIff | internal/db/store.go:331-340 | lexical hits weigh half as much again exactly for queries with a capital after a lower-case letter, an underscore between two, or a rune of code |
| FusionLaws.PlainBoost | internal/db/store.go:361-394 | a record without the boost fields is not boosted |
| FusionLaws.FactorBoost | internal/db/store.go:364-394 | a function score or a priority multiplies the boost by its number, if it is one |
| FusionLaws.RecencyHalves | internal/db/store.go:373-387 | a new document gets half as much again, and every fourteen days halve what it gets |
| FusionLaws.RecencyForDocumentsOnly | internal/db/store.go:373-387 | nothing but documents does |
| RecordStore.Store.constructor | internal/db/store.go:53-86 | connecting to a collection rebuilds the index in step with it |
| RecordStore.Store.ParseStringArray | internal/db/store.go:751-779 | the cache never changes an answer, and stays valid through partial eviction |
| RecordStore.Store.LexicalDocumentText | internal/db/store.go:127-157 | the trimmed fields joined by single blanks, empty ones left out, unparsable lists raw; FieldLaws says which words that makes searchable |
| RecordStore.Store.RebuildLexicalIndex | internal/db/store.go:88-106 | a new index of exactly the collection; nothing happens for an empty one |
| RecordStore.Store.IndexRecords | internal/db/store.go:100-103 | an index of the listed records |
| RecordStore.RebuiltIndex | internal/db/store.go:88-106 | indexing a listing of the whole collection, in any order, gives the index of the collection |
| RecordStore.AddDocuments | internal/db/store.go:166-168 | the batch is written in any order |
| RecordStore.Store.Insert | internal/db/store.go:160-176 | the collection after some order of the writes, the index after the batch in its order, each record under the tokens that FieldLaws.RecordTokens lists |
| RecordStore.Store.DeleteByFilter | internal/db/store.go:108-125 | exactly the matching records are gone from collection and index |
| RecordStore.Store.DeleteByPath | internal/db/store.go:497-502 | the same for a path of a project |
| RecordStore.Store.ClearProject | internal/db/store.go:534-539 | the same for a project |
| RecordStore.Store.DeleteByPrefix | internal/db/store.go:506-531 | exactly the project's records under the prefix are gone from both |
| RecordStore.PrefixRound | internal/db/store.go:517-529 | one round keeps the mid-loop state: a path's records leave the collection together and the index one by one |
| RecordStore.PrefixDone | internal/db/store.go:506-531 | after the last round both sides are in step again |
| RecordStore.Store.SetStatus | internal/db/store.go:689-709 | the project's status record is replaced, the rest of the collection as it was |
| RecordStore.Store.GetPathHashMapping | internal/db/store.go:542-565 | every path of a file-meta record, with the hash of one of its records |
| RecordStore.Store.FetchPassing | internal/db/store.go:229-253 | what the queries return: the records that pass the project and category filters, each once if no project is named twice |
| RecordStore.Store.ScoresById | internal/db/store.go:214-218 | the fetched scores by ID |
| RecordStore.Store.MatchRecords | internal/db/store.go:255-267 | the passing records that were fetched, with their scores |
| RecordStore.Store.LexicalSearch | internal/db/store.go:189-283 | one of the outcomes that fetch, queries, filter, sort and cut allow, also when a project is named twice; without filters, the best of a scan of a collection in step |
| RecordStore.Store.HybridSearch | internal/db/store.go:286-413 | the fusion of the vector ranking with the lexical search's, boosted, ranked and cut |
| IndexerModel.ChunkIdInjective | internal/indexer/scanner.go:306-343 | a chunk ID determines path and number, even when paths contain colons |
| IndexerModel.OwnerUnique | internal/indexer/scanner.go:306-359 | within a project an ID belongs to one path only |
| IndexerModel.FileIdsDisjointIff | internal/indexer/scanner.go:306-359 | records of two projects can have the same ID exactly when one root continues the other after a colon |
| IndexerModel.CollidingPath | internal/indexer/scanner.go:345-348 | then, the path whose record has it |
| IndexerModel.FreshProjectIff | internal/indexer/scanner.go:69-91 | when a store counts as holding nothing of a project |
| IndexerModel.StateDeterminesRecords | internal/indexer/scanner.go:265-291 | two stores that hold the same indexed files hold the same file records |
| IndexerModel.OtherProjectKept | internal/indexer/scanner.go:69-190 | a run leaves another project's records alone when their IDs cannot coincide |
| IncrementalIndex.ReindexedChanged | internal/indexer/scanner.go:93-190 | cleaning up and re-indexing exactly the changed files gives the outcome of a run |
| IncrementalIndex.AfterSameStoredIff | internal/indexer/scanner.go:69-190 | its files are stored as after indexing an empty store exactly if every indexed file still on disk is up to date or indexed anew |
| IncrementalIndex.SameRecordsIff | internal/indexer/scanner.go:265-291 | two stores hold the same file records, up to times, exactly if they hold the same stored files |
| IncrementalIndex.IncrementalEqualsRebuildIff | internal/indexer/scanner.go:69-190 | an incremental run leaves the file records of indexing an empty store, up to modification times, exactly under that condition |
| IncrementalIndex.RebuildIffEmbeddedAlike | internal/indexer/scanner.go:69-190 | when equal hashes mean equal contents, exactly if every indexed file still on disk can be read and, if its hash is unchanged, embeddings came back for as many of its chunks as they would now |
| IncrementalIndex.SameStoredIff | internal/indexer/scanner.go:265-291 | of one content the same is stored exactly if embeddings came back for the same number of chunks |
| IncrementalIndex.IncrementalEqualsRebuild | internal/indexer/scanner.go:69-190 | so it does when all files can be read, equal hashes mean equal contents and all embeddings succeed |
| IncrementalIndex.FailedEmbeddingStays | internal/indexer/scanner.go:93-106 | a file stored without all its chunks stays so as long as its content does, and the store differs from a rebuilt one |
| IncrementalIndex.SecondRunIdle | internal/indexer/scanner.go:93-106 | right after a run no readable file is changed and another run changes nothing |
| IncrementalIndex.MappingIsHashes | internal/db/store.go:542-565 | the hash mapping read back is that of the files indexed |
| IncrementalIndex.StatusStep | internal/db/store.go:689-709 | a status write in the middle of a run keeps its state |
| IncrementalIndex.DeleteStep | internal/db/store.go:497-502 | deleting a path takes exactly that file out |
| IncrementalIndex.InsertStep | internal/db/store.go:160-176 | inserting whole new files, in any write order, puts exactly those in |
| StoredFiles.StateHasFile | internal/indexer/scanner.go:265-363 | of an indexed file the store has exactly one document for each embedded chunk, with its text, its fields, and path, project, category, hash and time, one for the file, and no other chunk ID is in use |
| StoredFiles.StateHasNothingElse | internal/indexer/scanner.go:265-363 | of any other path it has nothing |
| StoredFiles.RunLeaves | internal/indexer/scanner.go:69-190 | after a run it has of each path the file on disk if that can be read and its hash is new, what there was if not, and nothing if it is gone or never was indexed |
| Indexer.PrepareRecords | internal/indexer/scanner.go:265-291 | one record per chunk, as far as embeddings came back, and one for the file; what they hold is HoldsChunk and HoldsFile |
| Indexer.ProcessFile | internal/indexer/scanner.go:193-217 | the records of a readable file, an error for one that cannot be indexed, the zero result after a panic |
| Indexer.IndexSingleFile | internal/indexer/scanner.go:366-383 | the file's records are replaced, so that the store has exactly those of the file as read, chunk by chunk; nothing happens when it fails or panics, and a panic is reported as success |
| Indexer.DiscoverFilesToIndex | internal/indexer/scanner.go:93-106 | exactly the files that are new or whose hash changed; the others are counted |
| Indexer.ChangedFilesFacts | internal/indexer/scanner.go:93-106 | a file is listed exactly when it is changed, and once |
| Indexer.CleanupStaleFiles | internal/indexer/scanner.go:108-124 | exactly the files gone from disk leave the store |
| Indexer.CollectResult | internal/indexer/scanner.go:160-184 | one worker's result, whichever comes next, is taken in |
| Indexer.Flush | internal/indexer/scanner.go:174-177 | a full batch is inserted and emptied |
| Indexer.LastFlush | internal/indexer/scanner.go:187-189 | what is left is inserted |
| Indexer.CollectResults | internal/indexer/scanner.go:157-190 | results in any order leave the same files indexed and counted |
| Indexer.ProcessIndexing | internal/indexer/scanner.go:126-190 | the listed files are re-indexed, and those indexed and those with an error are counted |
| Indexer.IndexFullCodebase | internal/indexer/scanner.go:69-91 | afterwards the store holds the outcome of the run, for every path the document of each chunk with its text and fields (StoredFiles.Leaves), its index is in step, other projects' records are untouched, and the numbers add up but for files that panicked |
| Indexer.ThreeKinds | internal/indexer/scanner.go:193-217 | every file looked at is indexed, fails with an error, or panics |
| Indexer.ReadHashes | internal/indexer/scanner.go:77-80 | the stored hashes of the indexed files |
| LruCache.LRUCache.constructor | internal/cache/lru.go:71-88 | an empty cache |
| LruCache.LRUCache.Get | internal/cache/lru.go:91-106 | answers and moves to the front, which is what LruRecency.RecentIsHit rests on; an expired entry is removed and missed |
| LruCache.LRUCache.Set | internal/cache/lru.go:109-137 | the entry is in front with its new expiry, and the oldest go until the capacity is met |
| LruCache.LRUCache.EvictOverflow | internal/cache/lru.go:132-134 | the eviction loop ends and keeps the newest maxSize entries |
| LruCache.LRUCache.EvictOldest | internal/cache/lru.go:167-173 | the victim is the last of the recency order |
| LruCache.LRUCache.Delete | internal/cache/lru.go:140-146 | the sequence without the key |
| LruCache.LRUCache.ClearAll | internal/cache/lru.go:149-157 | the empty sequence, also of the expiry table |
| LruCache.LRUCache.Size | internal/cache/lru.go:160-164 | the length of the sequence, at most the capacity |
| LruCache.LRUCache.RemoveKey | internal/cache/lru.go:176-197 | the key leaves map, list and expiry table together |
| LruCache.LRUCache.CleanupExpired | internal/cache/lru.go:200-215 | exactly the expired entries go, in any order of the keys |
| LruModel.InclusionStep | internal/cache/lru.go:91-214 | one operation on both caches keeps the smaller one's order part of the larger one's |
| LruModel.RunIncluded | internal/cache/lru.go:91-214 | so does every run |
| LruModel.BiggerCacheNeverLosesAHit | internal/cache/lru.go:91-106 | whatever the smaller cache answers after any run, the larger one answers too, with the same value |
| LruModel.HitsIncluded | internal/cache/lru.go:91-106 | a hit in an included cache is a hit with the same value |
| LruModel.EntriesAreLastSets | internal/cache/lru.go:91-157 | every entry is that of the last Set of its key, not deleted or cleared since |
| LruModel.HitIsLastSet | internal/cache/lru.go:91-106 | a hit is never stale and never expired |
| LruRecency.RecentIsHit | internal/cache/lru.go:91-137 | a key that was set or read with a hit is answered with its last value as long as it is not deleted, cleared or outlived and fewer than maxSize other keys were set or read with a hit since |
| LruRecency.RecentlyNamedIsHit | internal/cache/lru.go:91-137 | so it is if fewer than maxSize other keys were named since |
| LruRecency.HitIffRecent | internal/cache/lru.go:91-137 | while nothing is deleted or expires, a key is answered exactly under that condition |
| LruRecency.CleanupKeepsHits | internal/cache/lru.go:200-215 | right after a cleanup the cache holds exactly the keys it would still answer |
| RateLimiter.TokenBucket.constructor | internal/security/ratelimit/tokenbucket.go:24-31 | a full bucket |
| RateLimiter.TokenBucket.AllowN | internal/security/ratelimit/tokenbucket.go:41-60 | refill up to the burst, then grant exactly if enough is there |
| RateLimiter.TokenBucket.Remaining | internal/security/ratelimit/tokenbucket.go:96-108 | the level now, without bringing the bucket up to date |
| RateLimiter.TokenBucket.ResetFull | internal/security/ratelimit/tokenbucket.go:111-116 | a full bucket |
| RateLimiter.Middleware.Handle | internal/security/ratelimit/tokenbucket.go:201-227 | when nothing comes in between, admits exactly if the key's bucket, a full one for a new key, has a token; only that key's bucket changes |
| RateLimiter.Middleware.BucketOf | internal/security/ratelimit/tokenbucket.go:206-218 | the key's bucket, or a new full one, is held by the request |
| RateLimiter.Middleware.AllowIn | internal/security/ratelimit/tokenbucket.go:220 | the request draws from the bucket it holds, also when the table has dropped that |
| RateLimiter.Middleware.CleanupIdle | internal/security/ratelimit/tokenbucket.go:231-245 | exactly the buckets idle for longer than maxAge go |
| RateModel.RunInRange | internal/security/ratelimit/tokenbucket.go:41-60 | through every run the level stays between 0 and the burst |
| RateModel.KeepsRangeIff | internal/security/ratelimit/tokenbucket.go:41-60 | a request keeps every bucket within its range, whenever it comes, exactly when it is not negative or is more than the burst allows |
| RateModel.TakenBounded | internal/security/ratelimit/tokenbucket.go:41-60 | what is taken is at most what was there, plus production, plus a burst per reset |
| RateModel.WindowBound | internal/security/ratelimit/tokenbucket.go:41-60 | in every window of every run at most burst plus production is granted, plus a burst per reset inside |
| RateModel.SplitRefill | internal/security/ratelimit/tokenbucket.go:45-51 | refilling in two steps is refilling once |
| RateModel.SameLevelSameRun | internal/security/ratelimit/tokenbucket.go:41-60 | buckets with the same level at some time decide alike from then on |
| RateModel.RefusalsDoNotMatter | internal/security/ratelimit/tokenbucket.go:41-108 | leaving out all refused requests and peeks changes no other decision |
| RateLaws.GrantedIffAllWindowsFit | internal/security/ratelimit/tokenbucket.go:41-60 | a request to a bucket that began full is granted exactly if it is within the burst and overfills no window from an earlier request to now |
| RateLaws.LevelIsSomeRoom | internal/security/ratelimit/tokenbucket.go:41-60 | the level is the burst or what some such window has room for |
| RateLaws.LevelInRoom | internal/security/ratelimit/tokenbucket.go:41-60 | and never more than any has |
| LimiterModel.CleanupsTransparent | internal/security/ratelimit/tokenbucket.go:201-245 | cleanups anywhere in a run change no decision, if an idle bucket fills within the cleanup age |
| LimiterModel.CleanupTransparentIff | internal/security/ratelimit/tokenbucket.go:201-245 | for a constant rate and a burst of at least one, exactly if rate times age is at least the burst |
| LimiterModel.KeysIndependent | internal/security/ratelimit/tokenbucket.go:201-245 | a key's decisions are those of a private bucket asked only what that key asks, also with late cleanups in between |
| LimiterFlight.HandledAtOnce | internal/security/ratelimit/tokenbucket.go:201-227 | a request that draws at once is a request of the sequential limiter |
| LimiterFlight.GrantsAreTakenAndStrays | internal/security/ratelimit/tokenbucket.go:201-245 | however requests and late cleanups overlap, a key is granted exactly what a private bucket grants to its draws that are no strays, and the strays |
| LimiterFlight.WindowBoundInFlight | internal/security/ratelimit/tokenbucket.go:201-245 | in every window of every such run a key is granted at most a burst, the production of the window, and one for every stray |
| LimiterFlight.NoStrays | internal/security/ratelimit/tokenbucket.go:201-245 | there are none when no request is in flight while a cleanup runs |
| LimiterFlight.StrayOverfills | internal/security/ratelimit/tokenbucket.go:201-245 | a run in which a stray makes two grants at one time out of a burst of one |
| LspClient.Manager.EnsureStarted | internal/lsp/client.go:69-111 | lets the caller in if a server runs, else starts one if that can be done and sends initialize under the same hold of the mutex |
| LspClient.Manager.FinishStart | internal/lsp/client.go:111-146 | the starter with its answer is let in, or panics when the server has gone meanwhile |
| LspClient.Manager.Request | internal/lsp/client.go:159-161 | the second visit of a caller that was let in |
| LspClient.Manager.CallLocked | internal/lsp/client.go:164-188 | draws an id, registers the call before writing and takes it out again when writing fails; without a running server the caller panics and its call stays registered |
| LspClient.Manager.NotifyLocked | internal/lsp/client.go:224-237 | a notification is sent, fails, or kills its caller when the server has gone; nothing is registered |
| LspClient.Manager.Receive | internal/lsp/client.go:191-208 | the caller gets its body, which carries its own id, or an error after a close; one that wants no result is told the same in both cases |
| LspClient.Manager.GiveUp | internal/lsp/client.go:209-211 | a cancelled caller leaves; its entry stays registered |
| LspClient.Manager.Dispatch | internal/lsp/client.go:286-302 | an answer goes to the call registered under its id, which is taken out; the send finds the channel open and empty, so it cannot block |
| LspClient.Manager.HandleDisconnect | internal/lsp/client.go:316-324 | cleans up unless stopping |
| LspClient.Manager.CleanupLocked | internal/lsp/client.go:326-337 | every registered channel is closed, each of them still open, and the table emptied, in any order |
| LspClient.Manager.MonitorTick | internal/lsp/client.go:339-357 | shuts an idle server down and ends with it |
| LspClient.Manager.Shutdown | internal/lsp/client.go:360-366 | stops and cleans up |
| LspProtocol.StepSound | internal/lsp/client.go:69-366 | every step keeps: fresh ids, pending channels open and empty, one body or one close per channel, no lost wake-up, nothing but calls that died pending while no server runs |
| LspProtocol.ReachableSound | internal/lsp/client.go:69-366 | so every interleaving does, across restarts and with shutdowns between a caller's visits |
| LspProtocol.DiesIff | internal/lsp/client.go:153-256 | a caller that was let in and gets to write its request or notification panics exactly when a shutdown fell in between and no start after it |
| LspProtocol.StarterDiesIff | internal/lsp/client.go:102-146 | so does the caller that started a server, when it goes on with the answer to initialize |
| LspProtocol.ReaderDiesIff | internal/lsp/client.go:259-268 | and the server's reader, when it takes the server's output |
| LspProtocol.StopKillsCaller | internal/lsp/client.go:153-188 | a run in which a caller does, and its call stays registered |
| LspProtocol.StopKillsStarter | internal/lsp/client.go:102-146 | one in which the caller that started the server does |
| LspProtocol.StopKillsReader | internal/lsp/client.go:259-268 | and one in which its reader does |
| LspProtocol.FateDecides | internal/lsp/client.go:164-366 | a call's channel shows exactly what the answers to its id and the shutdowns of the run say, whatever other calls do |
| LspProtocol.CallerSeesItsFate | internal/lsp/client.go:191-211 | a received body is the first answer to the caller's own id; a caller that saw the close had no answer before it |
| LspProtocol.FirstAnswerCounts | internal/lsp/client.go:286-302 | the first answer after a call began, before any shutdown, settles it for good |
| LspProtocol.ShutdownWakesEveryone | internal/lsp/client.go:316-366 | after any shutdown in any reachable state every waiting caller can go on and nothing stays registered but calls that died |
| LspProtocol.DisconnectHarmlessIff | internal/lsp/client.go:316-324 | whoever reports a disconnect, it stops no server and tells no caller anything exactly when no server runs; unless calls died it then changes nothing at all |
| LspProtocol.QuietAfterStop | internal/lsp/client.go:316-366 | after a stop or an idle timeout a disconnect changes nothing at all until a server is started |
| LspProtocol.StaleReaderShutsNewCall | internal/lsp/client.go:316-324 | a run in which the reader of a stopped server shuts a call sent to its successor |
| LspProtocol.StaleReaderStopsIdleServer | internal/lsp/client.go:316-324 | and one in which it stops a successor all of whose calls have been answered |
| LspFraming.ReadHeaders | internal/lsp/client.go:262-278 | the header loop: last length wins, none means zero, one outside the range of int is the nearest int |
| LspFraming.ReadJunkLength | internal/lsp/client.go:269-275 | a length field without a numeral counts as zero, and one before it no longer does |
| LspFraming.ReadLoop | internal/lsp/client.go:259-285 | the bodies read from a stream, and whether it ended by disconnect or by a length that cannot be allocated |
| LspFraming.RoundTrip | internal/lsp/client.go:248-285 | reading any messages, whatever their bodies and other header fields, gives exactly the bodies, up to the first that cannot be allocated |
| LspFraming.WriterReaderRoundTrip | internal/lsp/client.go:248-285 | the client's own writer and reader undo each other exactly for bodies that can be allocated |
| LspFraming.WritingIsInjective | internal/lsp/client.go:248-257 | different lists of bodies never look the same on the wire |
| LspFraming.ReadExtends | internal/lsp/client.go:259-285 | of any stream: what was handed on is never taken back by what arrives later |
| LspFraming.TruncatedStream | internal/lsp/client.go:259-285 | a stream cut anywhere yields exactly the messages that arrived whole, then the disconnect |
| Decimal.ValueOfItoa | internal/lsp/client.go:249 | reading a written length gives the length |
| Text.BlankIff | internal/indexer/chunker.go:412 | trimming leaves nothing exactly for white space |
| Text.TrimmedIs | internal/indexer/chunker.go:412 | trimming takes all white space off both ends and nothing else |
| Chunker.SplitIfNeeded | internal/indexer/chunker.go:567-605 | the pieces of a chunk, window by window; the loop ends |
| Chunker.CutPiece | internal/indexer/chunker.go:579-597 | one piece with its lines |
| Chunker.FastChunk | internal/indexer/chunker.go:747-781 | the pieces of a whole text; the loop ends |
| Chunker.CutFast | internal/indexer/chunker.go:764-773 | one such piece with its lines |
| Chunker.SortMatches | internal/indexer/chunker.go:382-387 | some permutation by start, longer first |
| Chunker.SelectTopLevel | internal/indexer/chunker.go:389-401 | the top-level matches |
| Chunker.AddGap | internal/indexer/chunker.go:410-421 | the text between two positions, cut into chunks unless it is blank |
| Chunker.FillGaps | internal/indexer/chunker.go:403-438 | the chunks of all gaps in order |
| Chunker.AddMatches | internal/indexer/chunker.go:440-443 | the pieces of all matches in order |
| Chunker.ChunkMatches | internal/indexer/chunker.go:381-449 | from any matches to chunks: no character that is not white space is lost, every chunk is a stretch of the text with the right start line, and every match has a run of chunks of its own that rejoins to its content and carries its kind and contextual text |
| ChunkModel.WindowsTile | internal/indexer/chunker.go:577-602 | windows fit the limit, start exactly the overlap before the last one's end, each reaches further, and they run from start to end |
| ChunkModel.WindowsLossless | internal/indexer/chunker.go:577-602 | dropping the overlaps and joining restores the text, for any text |
| ChunkModel.SplitLossless | internal/indexer/chunker.go:567-605 | the same for the pieces of a chunk, none of them over the limit |
| ChunkModel.PiecePlaced | internal/indexer/chunker.go:583-597 | every piece is the text of its window with the right start line |
| ChunkModel.PieceEndLineIff | internal/indexer/chunker.go:588-597 | its end line is right exactly when nothing before the piece ends a line |
| ChunkModel.PieceLinesInOrderIff | internal/indexer/chunker.go:583-597 | its lines are in order exactly when at least half of the line ends up to its end lie in it |
| ChunkModel.PiecesInOrderIff | internal/indexer/chunker.go:567-605 | those of all pieces, exactly when that holds for every window |
| ChunkModel.LinesDouble | internal/indexer/chunker.go:577-602 | then the line ends double every two strides |
| ChunkModel.LongChunkOutOfOrder | internal/indexer/chunker.go:567-605 | so every chunk of 39 strides or more whose first stride ends a line has a piece that is said to end before it starts |
| ChunkModel.PieceEndsBeforeItStarts | internal/indexer/chunker.go:588-597 | a text whose second piece starts on line 2 and is said to end on line 1 |
| ChunkModel.FastLossless | internal/indexer/chunker.go:747-781 | the fallback's pieces rejoin to the text |
| ChunkModel.FastFaithful | internal/indexer/chunker.go:764-773 | each is a stretch of the text within the limit with the right lines at both ends |
| GapModel.TopLevelCovers | internal/indexer/chunker.go:389-401 | for any spans the kept ones climb strictly at both ends and every match lies inside one |
| GapModel.KeptIff | internal/indexer/chunker.go:389-401 | comparing with kept spans only is enough: a match is kept exactly when no earlier match contains it |
| GapModel.GapsComplement | internal/indexer/chunker.go:403-438 | every position is in a top-level span or in a gap, never in both |
| GapModel.GapsAreTheRest | internal/indexer/chunker.go:403-438 | gaps lie apart, in order, and are exactly the positions no match holds |
| GapModel.NothingLost | internal/indexer/chunker.go:403-449 | every character that is not white space is held by a chunk at its place |
| GapModel.NothingInvented | internal/indexer/chunker.go:403-449 | every chunk is a stretch of the text and starts on the line it says |
| GapModel.GapEndLineIff | internal/indexer/chunker.go:413-418 | the end line of an unsplit gap is that of its last character exactly when that one ends the line, else one short |
| GapModel.GapLinesInOrderIff | internal/indexer/chunker.go:413-418 | so its lines are in order exactly when the gap holds a line end |
| GapModel.GapPiecesInOrderIff | internal/indexer/chunker.go:413-418 | when the lines of all chunks of a gap are in order: a short one must hold a line end, of a long one each window at least half of the line ends up to its end |
| GapModel.GapEndsBeforeItStarts | internal/indexer/chunker.go:403-438 | a text of one letter, whose chunk starts on line 1 and is said to end on line 0 |
| GapModel.FallbackIff | internal/indexer/chunker.go:445-447 | the fallback is taken exactly for a blank file without matches |
| MatchRuns.SplitKeeps | internal/indexer/chunker.go:567-605 | splitting keeps kind and contextual text, and the first piece starts where the chunk does |
| MatchRuns.SortedHaveRuns | internal/indexer/chunker.go:403-449 | every match has a run of chunks of its own, nested or not, and what is in no run is text between matches |
| MatchRuns.AllHaveRuns | internal/indexer/chunker.go:381-449 | so it is for matches in any order |
| JsonComments.StripJsonc | internal/indexer/resolver.go:34-88 | the flags and the backward backslash count do what a forward reading with escapes does |
| JsonComments.CountBackslashes | internal/indexer/resolver.go:62-65 | how many backslashes stand before a quote |
| JsonComments.StripErases | internal/indexer/resolver.go:33-88 | stripping well-formed strings, other text and comments gives them without the comments, line ends kept |
| JsonComments.StripTwiceIff | internal/indexer/resolver.go:33-88 | for every text, a second pass changes nothing exactly when one scan of the text finds no kept character that would start a comment |
| JsonComments.UnchangedIffClean | internal/indexer/resolver.go:33-88 | a pass changes nothing exactly when nothing starts a comment |
| JsonComments.StripTwice | internal/indexer/resolver.go:33-88 | so it does if no block comment follows an odd number of backslashes outside strings |
| JsonComments.JsonIsSafe | internal/indexer/resolver.go:33-88 | which holds for all well-formed text with backslashes in strings only |
| JsonComments.JsonStripsOnce | internal/indexer/resolver.go:33-88 | so there the erased text stays as it is |
| JsonComments.StripTwiceCanDiffer | internal/indexer/resolver.go:33-88 | a text without that condition on which a second pass does more |
| Histograms.Histogram.constructor | internal/observability/metrics/prometheus.go:100-113 | nothing observed |
| Histograms.Histogram.Observe | internal/observability/metrics/prometheus.go:193-209 | one observation more: sum, count and the counts of all buckets agree with the history |
| Histograms.Histogram.Accumulate | internal/observability/metrics/prometheus.go:282-297 | the running count after each bucket |
| Histograms.Histogram.Format | internal/observability/metrics/prometheus.go:281-306 | each line counts the observations up to the largest bound so far, lines never fall, the last equals the count |
| Histograms.CumulativeCounts | internal/observability/metrics/prometheus.go:281-291 | the exported count at a bound, for any bounds and observations |
| Histograms.LabelHonestIff | internal/observability/metrics/prometheus.go:281-291 | it is the number of observations at or below its bound, for every history, exactly when no earlier bound is larger |
| Histograms.InfinityCountsAll | internal/observability/metrics/prometheus.go:293-301 | the last bucket's count is the number of observations |
| Histograms.CumulativeMonotone | internal/observability/metrics/prometheus.go:281-294 | counts never fall along the buckets |

## Left out

- RecordStore.Store.HybridSearch: the vector ranking is a parameter, and the two searches run one after the other;
  errors of either are not modelled.
- RecordStore.Store.Insert: library calls succeed; a failing AddDocuments leaves the collection in a state chromem
  decides.
- LruCache.LRUCache.constructor: a negative capacity is excluded, because with it the eviction loop of the first Set
  never ends.
- LruCache.LRUCache.Set: the capacity is a natural number, because with a negative one the source's eviction loop
  never ends; the onEvict callback is not modelled.
- RateLimiter.Middleware.AllowIn: the HTTP answers; the clock does not go back.
- LspClient.Manager.FinishStart: a notification or answer that fails with an error leaves no trace and is no step; the
  id counter is unbounded.
- LspProtocol.ReaderDiesIff: line 260 reads the output without the mutex, so which stream a late reader finds after a
  restart is not modelled.
- LspProtocol.ReachableSound: requests that the server itself sends with an id are read as answers, as the source
  reads them; notification handlers and the process itself are not modelled.
- LspFraming.ReadLoop: header bytes outside ASCII, and running out of memory below the largest allocation; parsing of
  the bodies is the function that finds their id.
- LspFraming.TruncatedStream: for bodies that can be allocated, as a stream with a larger one ends in a panic.
- LspFraming.RoundTrip: other header fields are ASCII, not blank, and do not begin with the length field's name.
- Chunker.ChunkMatches: the parser's matches are the input; that spans never cut a rune, and that a match's text and
  start line are those of its span, is required of it. The other fields of a chunk are copied along and not modelled.
- Histograms.Histogram.Format: only the numbers of the export; labels, names and their punctuation are text formatting.
- IncrementalIndex.IncrementalEqualsRebuild: modification times are ignored, since an unchanged file keeps its old one.
- Indexer.PrepareRecords: the vectors themselves; when an embedding fails the source gives the vectors of later chunks
  to earlier ones, and here only their number matters.
- Indexer.IndexFullCodebase: the directory walk and its ignore rules are the input list; status writes and inserts
  succeed.
- Vector similarity, SearchWithScore, GetAllStatuses and the other plain queries of the store.
- TokenBucket.Wait and WaitN: sleeping.
- Embedding models, tokenizers, model downloads, HTTP, MCP and RPC handlers, file watching, tracing, configuration and
  logging.
- Tree-sitter parsing, import and relationship extraction, PDF reading.
- Floating-point rounding and NaN, goroutine fairness, real timers.
