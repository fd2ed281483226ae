/** What an ingest does to the table and to the embedding service. */
module IngestLemmas {
  import opened Wrappers
  import opened JavaText
  import opened JsonNode
  import opened Http
  import opened Ollama
  import opened Store
  import opened PdfIngest

  /** The embedding is requested once, and a second time exactly when the first answer is null or empty. */
  lemma EmbedRetriesOnce(chunk: string, coerce: string -> Conversion, rs: seq<Reply>)
    ensures var first := EmbedRun(Some(chunk), coerce, rs);
      var E := EmbedWithRetryRun(chunk, coerce, rs);
      && (Usable(first.value) ==> E.sent == [EmbedRequest(chunk)] && E.value == first.value && E.rest == Rest(rs))
      && (!Usable(first.value) ==> E.sent == [EmbedRequest(chunk), EmbedRequest(chunk)]
                                   && E.rest == Rest(Rest(rs))
                                   && E.value == EmbedRun(Some(chunk), coerce, Rest(rs)).value)
  {
  }

  /** The embedding step sends its chunk's request once or twice, and nothing else. */
  lemma EmbedRetryRequests(chunk: string, coerce: string -> Conversion, rs: seq<Reply>)
    ensures var E := EmbedWithRetryRun(chunk, coerce, rs);
      1 <= |E.sent| <= 2 && forall k :: 0 <= k < |E.sent| ==> E.sent[k] == EmbedRequest(chunk)
  {
    EmbedRetriesOnce(chunk, coerce, rs);
  }

  /** An empty embedding writes nothing; an invalid element is refused before any write. */
  lemma SaveEmbeddingGuards(db: Db, refused: set<Stmt>, format: real -> string, id: nat, emb: seq<Option<Double>>)
    ensures var (r, db') := SaveEmbeddingDb(db, refused, format, id, emb);
      && (|emb| == 0 ==> r == Ok(0) && db' == db)
      && ((exists i :: 0 <= i < |emb| && Invalid(emb[i])) ==> r == Err(IllegalArgument(InvalidEmbeddingMessage)) && db' == db)
      && ((|emb| > 0 && forall i :: 0 <= i < |emb| ==> !Invalid(emb[i])) ==>
            db'.log == db.log + [SetEmbedding(id, VectorLiteral(Rendered(emb, format)))])
  {
    var R := SaveEmbeddingDb(db, refused, format, id, emb);
    if |emb| == 0 {
      assert R == (Ok(0), db);
    } else if HasInvalid(emb) {
      assert R == (Err(IllegalArgument(InvalidEmbeddingMessage)), db);
    } else {
      var stmt := SetEmbedding(id, VectorLiteral(Rendered(emb, format)));
      assert R == UpdateDb(db, refused, stmt);
      assert R.1.log == db.log + [stmt];
    }
  }

  /** The vector literal lists every element's rendering, in order, when no rendering holds a comma. */
  lemma EmbeddingLiteralRoundTrip(emb: seq<Option<Double>>, format: real -> string)
    requires |emb| > 0
    requires forall i :: 0 <= i < |emb| ==> !Invalid(emb[i])
    requires forall x: real, k :: 0 <= k < |format(x)| ==> format(x)[k] != ','
    ensures var lit := VectorLiteral(Rendered(emb, format));
      var parts := SplitAt(lit[1..|lit| - 1], ',');
      && |parts| == |emb|
      && forall i :: 0 <= i < |emb| && emb[i].Some? && emb[i].value.Finite? ==> parts[i] == format(emb[i].value.value)
  {
    var parts := Rendered(emb, format);
    forall i, k | 0 <= i < |parts| && 0 <= k < |parts[i]|
      ensures parts[i][k] != ','
    {
      assert parts[i] == format(emb[i].value.value);
    }
    VectorLiteralParts(parts);
  }

  /** Records keep their source, index and content; new ones may appear. */
  predicate Keeps(db: Db, db': Db) {
    && db.nextId <= db'.nextId
    && db.log <= db'.log
    && forall id :: id in db.table ==>
         && id in db'.table
         && db'.table[id].source == db.table[id].source
         && db'.table[id].chunkIndex == db.table[id].chunkIndex
         && db'.table[id].content == db.table[id].content
  }

  lemma KeepsTransitive(a: Db, b: Db, c: Db)
    requires Keeps(a, b) && Keeps(b, c)
    ensures Keeps(a, c)
  {
  }

  lemma UpdateKeeps(db: Db, refused: set<Stmt>, stmt: Stmt)
    requires stmt.SetMetadata? || stmt.SetEmbedding?
    requires Valid(db)
    ensures Valid(UpdateDb(db, refused, stmt).1) && Keeps(db, UpdateDb(db, refused, stmt).1)
    ensures UpdateDb(db, refused, stmt).1.nextId == db.nextId
  {
  }

  lemma SaveEmbeddingKeeps(db: Db, refused: set<Stmt>, format: real -> string, id: nat, emb: seq<Option<Double>>)
    requires Valid(db)
    ensures var db' := SaveEmbeddingDb(db, refused, format, id, emb).1;
      Valid(db') && Keeps(db, db') && db'.nextId == db.nextId
      && forall st :: st in db'.log[|db.log|..] ==> st == SetEmbedding(id, VectorLiteral(Rendered(emb, format)))
  {
    if |emb| > 0 && !HasInvalid(emb) {
      UpdateKeeps(db, refused, SetEmbedding(id, VectorLiteral(Rendered(emb, format))));
    }
  }

  /**
   * One chunk: a saved record carries the chunk's source, index and content; a null file name
   * stops after the insert; otherwise the metadata UPDATE follows, and an embedding UPDATE only
   * when an embedding came back. No failure of an UPDATE is reported.
   */
  lemma StoreChunkEffect(db: Db, refused: set<Stmt>, format: real -> string, source: Option<string>,
                         i: nat, chunk: string, emb: Option<seq<Option<Double>>>)
    requires Valid(db)
    ensures var (f, db') := StoreChunkDb(db, refused, format, source, i, chunk, emb);
      var id := db.nextId;
      && Valid(db') && Keeps(db, db')
      && (Insert(source, i, chunk) in refused ==> f == Some(DataAccess) && db'.table == db.table && db'.nextId == id)
      && (Insert(source, i, chunk) !in refused ==>
            && db'.nextId == id + 1 && id !in db.table && id in db'.table
            && db'.table[id].source == source && db'.table[id].chunkIndex == i && db'.table[id].content == chunk
            && (f.None? <==> source.Some?)
            && (f.Some? ==> f == Some(NullPointer) && db'.log == db.log + [Insert(source, i, chunk)]))
      && (f.None? ==> db'.log[|db.log|..|db.log| + 2] == [Insert(source, i, chunk), SetMetadata(id, Metadata(source.value, i))])
      && (f.None? && !Usable(emb) ==> |db'.log| == |db.log| + 2)
  {
    var R := StoreChunkDb(db, refused, format, source, i, chunk, emb);
    var (saved, db1) := SaveDb(db, refused, source, i, chunk);
    SaveKeepsValid(db, refused, source, i, chunk);
    if saved.Err? {
      assert R == (Some(saved.error), db1);
    } else if source.None? {
      assert R == (Some(NullPointer), db1);
    } else {
      var id := saved.value;
      var stmt := SetMetadata(id, Metadata(source.value, i));
      var db2 := UpdateDb(db1, refused, stmt).1;
      UpdateKeeps(db1, refused, stmt);
      KeepsTransitive(db, db1, db2);
      assert db2.log == db.log + [Insert(source, i, chunk), stmt];
      if Usable(emb) {
        var db3 := SaveEmbeddingDb(db2, refused, format, id, emb.value).1;
        assert R == (None, db3);
        SaveEmbeddingKeeps(db2, refused, format, id, emb.value);
        KeepsTransitive(db, db2, db3);
        assert db3.log[..|db2.log|] == db2.log;
        assert db3.log[|db.log|..|db.log| + 2] == db2.log[|db.log|..|db.log| + 2];
      } else {
        assert R == (None, db2);
      }
    }
  }

  /** An embedding that did not come back is never written. */
  lemma NoEmbeddingNoUpdate(db: Db, refused: set<Stmt>, format: real -> string, source: Option<string>,
                            i: nat, chunk: string, emb: Option<seq<Option<Double>>>)
    requires !Usable(emb)
    ensures var db' := StoreChunkDb(db, refused, format, source, i, chunk, emb).1;
      forall k :: |db.log| <= k < |db'.log| ==> !db'.log[k].SetEmbedding?
  {
  }

  /** The database refuses no insert. */
  predicate InsertsAccepted(refused: set<Stmt>) {
    forall st :: st in refused ==> !st.Insert?
  }

  /** Chunk j, counted from chunk i, is record db.nextId + (j - i) of db', new since db. */
  predicate SavedAt(db: Db, db': Db, i: nat, j: nat, source: Option<string>, chunk: string) {
    var id := db.nextId + (j - i);
    && id !in db.table && id in db'.table
    && db'.table[id].source == source && db'.table[id].chunkIndex == j && db'.table[id].content == chunk
  }

  /** Chunks i.. of the list are the records from db.nextId on. */
  predicate SavedFrom(chunks: seq<string>, i: nat, source: Option<string>, db: Db, db': Db) {
    && db'.nextId == db.nextId + (|chunks| - i)
    && forall j :: i <= j < |chunks| ==> SavedAt(db, db', i, j, source, chunks[j])
  }

  lemma SavedStep(chunks: seq<string>, i: nat, source: Option<string>, db: Db, db1: Db, db2: Db)
    requires i < |chunks|
    requires db1.nextId == db.nextId + 1 && db.nextId !in db.table && db.nextId in db1.table
    requires db1.table[db.nextId].source == source && db1.table[db.nextId].chunkIndex == i
    requires db1.table[db.nextId].content == chunks[i]
    requires Keeps(db, db1) && Keeps(db1, db2) && SavedFrom(chunks, i + 1, source, db1, db2)
    ensures SavedFrom(chunks, i, source, db, db2)
  {
    forall j | i <= j < |chunks|
      ensures SavedAt(db, db2, i, j, source, chunks[j])
    {
      if j > i {
        assert SavedAt(db1, db2, i + 1, j, source, chunks[j]);
        var id := db.nextId + (j - i);
        assert id == db1.nextId + (j - (i + 1));
        assert id in db.table ==> id in db1.table;
      } else {
        var id := db.nextId;
        assert id in db1.table;
        assert db2.table[id].source == db1.table[id].source;
        assert db2.table[id].chunkIndex == db1.table[id].chunkIndex;
      }
    }
  }

  /**
   * With a file name and every insert accepted, chunk j becomes record nextId + j with index j
   * and that chunk's content, whatever happens to the UPDATEs, and existing records are kept.
   */
  lemma {:induction false} IngestSavesEveryChunk(chunks: seq<string>, i: nat, source: Option<string>,
                                                 coerce: string -> Conversion, refused: set<Stmt>,
                                                 format: real -> string, db: Db, rs: seq<Reply>)
    requires i <= |chunks| && source.Some? && InsertsAccepted(refused) && Valid(db)
    ensures var R := IngestFrom(chunks, i, source, coerce, refused, format, db, rs);
      R.failure.None? && Valid(R.db) && Keeps(db, R.db) && SavedFrom(chunks, i, source, db, R.db)
    decreases |chunks| - i
  {
    if i < |chunks| {
      var E := EmbedWithRetryRun(chunks[i], coerce, rs);
      var (f, db1) := StoreChunkDb(db, refused, format, source, i, chunks[i], E.value);
      StoreChunkEffect(db, refused, format, source, i, chunks[i], E.value);
      assert Insert(source, i, chunks[i]) !in refused;
      IngestSavesEveryChunk(chunks, i + 1, source, coerce, refused, format, db1, E.rest);
      var R := IngestFrom(chunks, i + 1, source, coerce, refused, format, db1, E.rest);
      assert IngestFrom(chunks, i, source, coerce, refused, format, db, rs).db == R.db;
      KeepsTransitive(db, db1, R.db);
      SavedStep(chunks, i, source, db, db1, R.db);
    }
  }

  /** Each chunk costs one or two embedding requests, the first of them for chunk i. */
  lemma {:induction false} IngestRequestCount(chunks: seq<string>, i: nat, source: Option<string>,
                                              coerce: string -> Conversion, refused: set<Stmt>,
                                              format: real -> string, db: Db, rs: seq<Reply>)
    requires i <= |chunks|
    ensures var R := IngestFrom(chunks, i, source, coerce, refused, format, db, rs);
      && |R.sent| <= 2 * (|chunks| - i)
      && (R.failure.None? ==> |R.sent| >= |chunks| - i)
      && (i < |chunks| ==> |R.sent| > 0 && R.sent[0] == EmbedRequest(chunks[i]))
    decreases |chunks| - i
  {
    if i < |chunks| {
      var E := EmbedWithRetryRun(chunks[i], coerce, rs);
      EmbedRetriesOnce(chunks[i], coerce, rs);
      var (f, db1) := StoreChunkDb(db, refused, format, source, i, chunks[i], E.value);
      if f.None? {
        IngestRequestCount(chunks, i + 1, source, coerce, refused, format, db1, E.rest);
      }
    }
  }

  /** r embeds one of the chunks from i on. */
  predicate ForSomeChunk(r: Request, chunks: seq<string>, i: nat) {
    exists j :: i <= j < |chunks| && r == EmbedRequest(chunks[j])
  }

  /** Every request in sent embeds one of the chunks from i on. */
  predicate AllForChunks(sent: seq<Request>, chunks: seq<string>, i: nat) {
    forall k :: 0 <= k < |sent| ==> ForSomeChunk(sent[k], chunks, i)
  }

  /** Requests for chunk i followed by requests for later chunks. */
  lemma AllForChunksStep(A: seq<Request>, Q: seq<Request>, chunks: seq<string>, i: nat)
    requires i < |chunks| && forall k :: 0 <= k < |A| ==> A[k] == EmbedRequest(chunks[i])
    requires AllForChunks(Q, chunks, i + 1)
    ensures AllForChunks(A + Q, chunks, i)
  {
    forall k | 0 <= k < |A + Q| ensures ForSomeChunk((A + Q)[k], chunks, i) {
      if k < |A| {
        assert (A + Q)[k] == EmbedRequest(chunks[i]);
      } else {
        assert (A + Q)[k] == Q[k - |A|];
        assert ForSomeChunk(Q[k - |A|], chunks, i + 1);
        var j :| i + 1 <= j < |chunks| && Q[k - |A|] == EmbedRequest(chunks[j]);
      }
    }
  }

  /** Every request the ingest makes embeds one of the chunks still to come. */
  lemma {:induction false} IngestRequestTargets(chunks: seq<string>, i: nat, source: Option<string>,
                                                coerce: string -> Conversion, refused: set<Stmt>,
                                                format: real -> string, db: Db, rs: seq<Reply>)
    requires i <= |chunks|
    ensures AllForChunks(IngestFrom(chunks, i, source, coerce, refused, format, db, rs).sent, chunks, i)
    decreases |chunks| - i
  {
    if i < |chunks| {
      var E := EmbedWithRetryRun(chunks[i], coerce, rs);
      EmbedRetryRequests(chunks[i], coerce, rs);
      var (f, db1) := StoreChunkDb(db, refused, format, source, i, chunks[i], E.value);
      if f.None? {
        var R := IngestFrom(chunks, i + 1, source, coerce, refused, format, db1, E.rest);
        IngestRequestTargets(chunks, i + 1, source, coerce, refused, format, db1, E.rest);
        assert IngestFrom(chunks, i, source, coerce, refused, format, db, rs).sent == E.sent + R.sent;
        AllForChunksStep(E.sent, R.sent, chunks, i);
      } else {
        AllForChunksStep(E.sent, [], chunks, i);
        assert E.sent + [] == E.sent;
      }
    }
  }

  /** Each chunk costs one or two embedding requests, for that chunk, in chunk order. */
  lemma IngestRequests(chunks: seq<string>, i: nat, source: Option<string>,
                       coerce: string -> Conversion, refused: set<Stmt>,
                       format: real -> string, db: Db, rs: seq<Reply>)
    requires i <= |chunks|
    ensures var R := IngestFrom(chunks, i, source, coerce, refused, format, db, rs);
      && |R.sent| <= 2 * (|chunks| - i)
      && (R.failure.None? ==> |R.sent| >= |chunks| - i)
      && (forall k :: 0 <= k < |R.sent| ==> exists j :: i <= j < |chunks| && R.sent[k] == EmbedRequest(chunks[j]))
      && (i < |chunks| ==> |R.sent| > 0 && R.sent[0] == EmbedRequest(chunks[i]))
  {
    IngestRequestCount(chunks, i, source, coerce, refused, format, db, rs);
    IngestRequestTargets(chunks, i, source, coerce, refused, format, db, rs);
    var R := IngestFrom(chunks, i, source, coerce, refused, format, db, rs);
    forall k | 0 <= k < |R.sent| ensures exists j :: i <= j < |chunks| && R.sent[k] == EmbedRequest(chunks[j]) {
      assert ForSomeChunk(R.sent[k], chunks, i);
    }
  }

  /** A null file name: the first chunk is embedded and inserted, then the ingest fails. */
  lemma NullSourceStopsAfterFirstInsert(chunks: seq<string>, coerce: string -> Conversion, refused: set<Stmt>,
                                        format: real -> string, db: Db, rs: seq<Reply>)
    requires |chunks| > 0 && InsertsAccepted(refused)
    ensures var R := IngestFrom(chunks, 0, None, coerce, refused, format, db, rs);
      var E := EmbedWithRetryRun(chunks[0], coerce, rs);
      && R.failure == Some(NullPointer)
      && R.db.nextId == db.nextId + 1
      && R.db.log == db.log + [Insert(None, 0, chunks[0])]
      && R.sent == E.sent && R.rest == E.rest
  {
    assert Insert(None, 0, chunks[0]) !in refused;
  }

  /** Text without a single non-blank window stores nothing and makes no request. */
  lemma NothingToIngest(source: Option<string>, coerce: string -> Conversion, refused: set<Stmt>,
                        format: real -> string, db: Db, rs: seq<Reply>)
    ensures IngestFrom([], 0, source, coerce, refused, format, db, rs) == Ingested(None, db, rs, [])
  {
  }
}
