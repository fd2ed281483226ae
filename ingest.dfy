/**
 * PdfIngestService: the extracted text is cut into windows, and each non-empty trimmed window
 * is embedded (with one retry), saved as a record, given its metadata and, when an embedding
 * came back, its vector.
 */
module PdfIngest {
  import opened Wrappers
  import opened JavaText
  import opened JsonNode
  import opened Http
  import opened Ollama
  import opened Store

  const ChunkSize: int := 800
  const ChunkOverlap: int := 150
  const InvalidEmbeddingMessage: string := "Embedding contains invalid value " + "(null/NaN/Infinite)"

  // ---------------------------------------------------------------------------------------
  // chunkText

  function Min(a: int, b: int): int {
    if a <= b then a else b
  }

  /** Math.max(end - overlap, end), the next window's start. */
  function NextStart(end: nat, overlap: int): (next: nat)
    ensures next >= end
    ensures overlap >= 0 ==> next == end
  {
    if end - overlap > end then end - overlap else end
  }

  /** A trimmed window is kept only when it is not empty. */
  function Emit(c: string): seq<string> {
    if c == "" then [] else [c]
  }

  /** chunkText from window start on. */
  function ChunkFrom(text: string, size: int, overlap: int, start: nat): seq<string>
    requires size > 0
    decreases |text| - start
  {
    if start >= |text| then []
    else
      var end := Min(|text|, start + size);
      var c := Trim(text[start..end]);
      Emit(c) + (if end == |text| then [] else ChunkFrom(text, size, overlap, NextStart(end, overlap)))
  }

  /** The windows of size characters from start on, the last one clipped to the text. */
  function WindowsFrom(text: string, size: int, start: nat): seq<string>
    requires size > 0
    decreases |text| - start
  {
    if start >= |text| then []
    else
      var end := Min(|text|, start + size);
      [text[start..end]] + WindowsFrom(text, size, end)
  }

  /** The non-empty trims of the windows, in order. */
  function Emitted(windows: seq<string>): seq<string> {
    if |windows| == 0 then []
    else Emit(Trim(windows[0])) + Emitted(windows[1..])
  }

  function Concat(parts: seq<string>): string {
    if |parts| == 0 then "" else parts[0] + Concat(parts[1..])
  }

  /** With a non-negative overlap every window starts where the previous one ended: the overlap does nothing. */
  lemma {:induction false} OverlapHasNoEffect(text: string, size: int, overlap: int, start: nat)
    requires size > 0 && overlap >= 0
    ensures ChunkFrom(text, size, overlap, start) == Emitted(WindowsFrom(text, size, start))
    decreases |text| - start
  {
    if start < |text| {
      var end := Min(|text|, start + size);
      var ws := WindowsFrom(text, size, start);
      assert ws[1..] == WindowsFrom(text, size, end);
      if end < |text| {
        OverlapHasNoEffect(text, size, overlap, end);
      }
    }
  }

  /** The windows put back together are the text. */
  lemma {:induction false} WindowsCoverText(text: string, size: int, start: nat)
    requires size > 0 && start <= |text|
    ensures Concat(WindowsFrom(text, size, start)) == text[start..]
    decreases |text| - start
  {
    if start < |text| {
      var end := Min(|text|, start + size);
      WindowsCoverText(text, size, end);
      assert WindowsFrom(text, size, start)[1..] == WindowsFrom(text, size, end);
      assert text[start..] == text[start..end] + text[end..];
    }
  }

  /** Window k from start on is [start + k·size, min(len, start + (k+1)·size)). */
  lemma {:induction false} WindowAt(text: string, size: int, start: nat, k: nat)
    requires size > 0 && k < |WindowsFrom(text, size, start)|
    ensures start + (k + 1) * size >= 0
    ensures start + k * size <= Min(|text|, start + (k + 1) * size) <= |text|
    ensures WindowsFrom(text, size, start)[k] == text[start + k * size..Min(|text|, start + (k + 1) * size)]
    decreases k
  {
    var end := Min(|text|, start + size);
    if k > 0 {
      assert WindowsFrom(text, size, start)[k] == WindowsFrom(text, size, end)[k - 1];
      assert end == start + size;
      WindowAt(text, size, end, k - 1);
      assert end + (k - 1) * size == start + k * size;
      assert end + k * size == start + (k + 1) * size;
    }
  }

  lemma FactorBelow(d: int, b: int)
    requires b > 0 && -b < d * b < b
    ensures d == 0
  {
  }

  lemma DivByRange(a: int, b: int, q: int)
    requires b > 0 && q * b <= a < q * b + b
    ensures a / b == q
  {
    var d := a / b - q;
    assert a == (a / b) * b + a % b;
    assert d * b == (a / b) * b - q * b;
    FactorBelow(d, b);
  }

  /** Every window but the last is full, and the last is not empty. */
  lemma {:induction false} WindowSpan(text: string, size: int, start: nat)
    requires size > 0 && start <= |text|
    ensures var n, N := |text| - start, |WindowsFrom(text, size, start)|;
      N * size - size < n <= N * size
    decreases |text| - start
  {
    if start < |text| {
      var end := Min(|text|, start + size);
      assert WindowsFrom(text, size, start)[1..] == WindowsFrom(text, size, end);
      if end < |text| {
        WindowSpan(text, size, end);
        var N' := |WindowsFrom(text, size, end)|;
        assert (N' + 1) * size == N' * size + size;
      }
    }
  }

  /** There are ⌈(len - start) / size⌉ windows. */
  lemma WindowCount(text: string, size: int, start: nat)
    requires size > 0 && start <= |text|
    ensures |WindowsFrom(text, size, start)| == (|text| - start + size - 1) / size
  {
    WindowSpan(text, size, start);
    DivByRange(|text| - start + size - 1, size, |WindowsFrom(text, size, start)|);
  }

  /** Filtering only drops windows: never more chunks than windows, none empty, each trimmed. */
  lemma {:induction false} EmittedShape(windows: seq<string>)
    ensures |Emitted(windows)| <= |windows|
    ensures forall c :: c in Emitted(windows) ==> c != "" && Trim(c) == c
  {
    if |windows| > 0 {
      EmittedShape(windows[1..]);
      TrimIdempotent(windows[0]);
      assert Emitted(windows) == Emit(Trim(windows[0])) + Emitted(windows[1..]);
    }
  }

  /** Every chunk is the trim of one of the windows. */
  lemma {:induction false} EmittedFromWindows(windows: seq<string>)
    ensures forall c :: c in Emitted(windows) ==> exists k :: 0 <= k < |windows| && c == Trim(windows[k])
  {
    if |windows| > 0 {
      EmittedFromWindows(windows[1..]);
      forall c | c in Emitted(windows)
        ensures exists k :: 0 <= k < |windows| && c == Trim(windows[k])
      {
        if c in Emitted(windows[1..]) {
          var k :| 0 <= k < |windows[1..]| && c == Trim(windows[1..][k]);
          assert c == Trim(windows[k + 1]);
        } else {
          assert c == Trim(windows[0]);
        }
      }
    }
  }

  /**
   * chunkText with a non-negative overlap: the non-empty trims of consecutive disjoint windows
   * that tile the text (WindowAt gives their bounds), at most ⌈len / size⌉ of them.
   */
  lemma ChunksAreTrimmedWindows(text: string, size: int, overlap: int)
    requires size > 0 && overlap >= 0
    ensures var chunks := ChunkFrom(text, size, overlap, 0);
      var ws := WindowsFrom(text, size, 0);
      && chunks == Emitted(ws)
      && chunks == ChunkFrom(text, size, 0, 0)
      && Concat(ws) == text
      && |ws| == (|text| + size - 1) / size
      && |chunks| <= (|text| + size - 1) / size
      && (forall c :: c in chunks ==> c != "" && Trim(c) == c)
  {
    OverlapHasNoEffect(text, size, overlap, 0);
    OverlapHasNoEffect(text, size, 0, 0);
    WindowsCoverText(text, size, 0);
    WindowCount(text, size, 0);
    EmittedShape(WindowsFrom(text, size, 0));
  }

  /** Empty text gives no chunks. */
  lemma EmptyTextNoChunks(size: int, overlap: int)
    requires size > 0
    ensures ChunkFrom("", size, overlap, 0) == []
  {
  }

  // ---------------------------------------------------------------------------------------
  // Embeddings and the per-chunk writes

  /** ollama.embed(chunk), and once more when that gave null or an empty list. */
  function EmbedWithRetryRun(chunk: string, coerce: string -> Conversion, rs: seq<Reply>): Run<Option<seq<Option<Double>>>> {
    var first := EmbedRun(Some(chunk), coerce, rs);
    if Usable(first.value) then first
    else After(first.sent, EmbedRun(Some(chunk), coerce, first.rest))
  }

  /** The validation: null, NaN and the infinities are refused. */
  predicate Invalid(d: Option<Double>) {
    d.None? || !d.value.Finite?
  }

  /** Whether some element of emb is refused by the validation. */
  function HasInvalid(emb: seq<Option<Double>>): (b: bool)
    ensures b <==> exists i :: 0 <= i < |emb| && Invalid(emb[i])
  {
    if |emb| == 0 then false
    else if Invalid(emb[0]) then true
    else
      var b := HasInvalid(emb[1..]);
      assert forall i :: 1 <= i < |emb| ==> emb[i] == emb[1..][i - 1];
      b
  }

  /** String.format(Locale.US, "%.12f", d) for every element; format is the rendering of a finite value. */
  function Rendered(emb: seq<Option<Double>>, format: real -> string): (parts: seq<string>)
    ensures |parts| == |emb|
    ensures forall i :: 0 <= i < |emb| && emb[i].Some? && emb[i].value.Finite? ==> parts[i] == format(emb[i].value.value)
  {
    if |emb| == 0 then []
    else
      [if emb[0].Some? && emb[0].value.Finite? then format(emb[0].value.value) else ""]
      + Rendered(emb[1..], format)
  }

  /** saveEmbedding(id, emb): 0 for an empty list, an exception before any write for an invalid element. */
  function SaveEmbeddingDb(db: Db, refused: set<Stmt>, format: real -> string, id: nat,
                           emb: seq<Option<Double>>): (Result<nat>, Db)
  {
    if |emb| == 0 then (Ok(0), db)
    else if HasInvalid(emb) then (Err(IllegalArgument(InvalidEmbeddingMessage)), db)
    else UpdateDb(db, refused, SetEmbedding(id, VectorLiteral(Rendered(emb, format))))
  }

  /**
   * Steps 2 to 4 for chunk i: the record is saved (a failure there ends the ingest), the
   * metadata is written whatever the embedding (Map.of throws on a null file name, which
   * ends the ingest too), and the embedding is written only when there is one; failures of
   * both UPDATEs are caught.
   */
  function StoreChunkDb(db: Db, refused: set<Stmt>, format: real -> string, source: Option<string>,
                        i: nat, chunk: string, emb: Option<seq<Option<Double>>>): (Option<Failure>, Db)
  {
    var (saved, db1) := SaveDb(db, refused, source, i, chunk);
    if saved.Err? then (Some(saved.error), db1)
    else if source.None? then (Some(NullPointer), db1)
    else
      var id := saved.value;
      var db2 := UpdateDb(db1, refused, SetMetadata(id, Metadata(source.value, i))).1;
      if !Usable(emb) then (None, db2)
      else (None, SaveEmbeddingDb(db2, refused, format, id, emb.value).1)
  }

  /** The outcome of ingesting: the exception that ended it, if any, the database, and the network. */
  datatype Ingested = Ingested(failure: Option<Failure>, db: Db, rest: seq<Reply>, sent: seq<Request>)

  /** The ingest loop from chunk i on. */
  function IngestFrom(chunks: seq<string>, i: nat, source: Option<string>, coerce: string -> Conversion,
                      refused: set<Stmt>, format: real -> string, db: Db, rs: seq<Reply>): Ingested
    decreases |chunks| - i
  {
    if i >= |chunks| then Ingested(None, db, rs, [])
    else
      var E := EmbedWithRetryRun(chunks[i], coerce, rs);
      var (failure, db1) := StoreChunkDb(db, refused, format, source, i, chunks[i], E.value);
      if failure.Some? then Ingested(failure, db1, E.rest, E.sent)
      else
        var R := IngestFrom(chunks, i + 1, source, coerce, refused, format, db1, E.rest);
        Ingested(R.failure, R.db, R.rest, E.sent + R.sent)
  }

  class PdfIngestService {
    const client: OllamaClient
    const store: ChunkStore
    /** String.format(Locale.US, "%.12f", ·) on a finite double. */
    const format: real -> string

    constructor (client: OllamaClient, store: ChunkStore, format: real -> string)
      ensures this.client == client && this.store == store && this.format == format
    {
      this.client := client;
      this.store := store;
      this.format := format;
    }

    /** chunkText(text, size, overlap). */
    method ChunkText(text: string, size: int, overlap: int) returns (chunks: seq<string>)
      requires size > 0
      ensures chunks == ChunkFrom(text, size, overlap, 0)
    {
      chunks := [];
      var start: nat := 0;
      ghost var all := ChunkFrom(text, size, overlap, 0);
      while start < |text|
        invariant chunks + ChunkFrom(text, size, overlap, start) == all
        decreases |text| - start
      {
        var end := Min(|text|, start + size);
        var c := Trim(text[start..end]);
        ghost var later := if end == |text| then [] else ChunkFrom(text, size, overlap, NextStart(end, overlap));
        assert ChunkFrom(text, size, overlap, start) == Emit(c) + later;
        ghost var before := chunks;
        if c != "" {
          chunks := chunks + [c];
        }
        assert chunks == before + Emit(c);
        AppendAssoc(before, Emit(c), later);
        if end == |text| {
          assert chunks == all;
          return;
        }
        start := NextStart(end, overlap);
      }
    }

    /** ingest(file), the file given by its extracted text and its original file name. */
    method Ingest(text: string, source: Option<string>) returns (failure: Option<Failure>)
      modifies client.net, store
      ensures var R := IngestFrom(ChunkFrom(text, ChunkSize, ChunkOverlap, 0), 0, source, client.coerce,
                                  store.refused, format, old(store.State()), old(client.net.replies));
        && failure == R.failure && store.State() == R.db
        && client.net.replies == R.rest && client.net.sent == old(client.net.sent) + R.sent
    {
      var chunks := ChunkText(text, ChunkSize, ChunkOverlap);
      ghost var R0 := IngestFrom(chunks, 0, source, client.coerce, store.refused, format,
                                 store.State(), client.net.replies);
      ghost var sent0 := client.net.sent;
      for i := 0 to |chunks|
        invariant var Ri := IngestFrom(chunks, i, source, client.coerce, store.refused, format,
                                       store.State(), client.net.replies);
          && Ri.failure == R0.failure && Ri.db == R0.db && Ri.rest == R0.rest
          && client.net.sent + Ri.sent == sent0 + R0.sent
      {
        ghost var sentBefore := client.net.sent;
        ghost var E := EmbedWithRetryRun(chunks[i], client.coerce, client.net.replies);
        var emb := EmbedWithRetry(chunks[i]);
        failure := StoreChunk(i, chunks[i], source, emb);
        if failure.Some? {
          return;
        }
        AppendAssoc(sentBefore, E.sent,
                    IngestFrom(chunks, i + 1, source, client.coerce, store.refused, format, store.State(), client.net.replies).sent);
      }
      failure := None;
    }

    /** Step 1: one embed call, and a second when the first gave null or an empty list. */
    method EmbedWithRetry(chunk: string) returns (emb: Option<seq<Option<Double>>>)
      modifies client.net
      ensures var E := EmbedWithRetryRun(chunk, client.coerce, old(client.net.replies));
        emb == E.value && client.net.replies == E.rest && client.net.sent == old(client.net.sent) + E.sent
    {
      emb := client.Embed(Some(chunk));
      if emb.None? || |emb.value| == 0 {
        emb := client.Embed(Some(chunk));
      }
    }

    /** Steps 2 to 4 for one chunk. */
    method StoreChunk(i: nat, chunk: string, source: Option<string>, emb: Option<seq<Option<Double>>>)
      returns (failure: Option<Failure>)
      modifies store
      ensures (failure, store.State()) == StoreChunkDb(old(store.State()), store.refused, format, source, i, chunk, emb)
    {
      var saved := store.Save(source, i, chunk);
      if saved.Err? {
        return Some(saved.error);
      }
      if source.None? {
        return Some(NullPointer);
      }
      var id := saved.value;
      var _ := SaveMetadata(id, Metadata(source.value, i));
      if emb.None? || |emb.value| == 0 {
        return None;
      }
      var _ := SaveEmbedding(id, emb.value);
      return None;
    }

    /** saveMetadata(id, json). */
    method SaveMetadata(id: nat, metadata: Metadata) returns (r: Result<nat>)
      modifies store
      ensures (r, store.State()) == UpdateDb(old(store.State()), store.refused, SetMetadata(id, metadata))
    {
      r := store.Update(SetMetadata(id, metadata));
    }

    /** saveEmbedding(id, emb): the validation loop, then the UPDATE with the vector literal. */
    method SaveEmbedding(id: nat, emb: seq<Option<Double>>) returns (r: Result<nat>)
      modifies store
      ensures (r, store.State()) == SaveEmbeddingDb(old(store.State()), store.refused, format, id, emb)
    {
      if |emb| == 0 {
        return Ok(0);
      }
      for i := 0 to |emb|
        invariant forall j :: 0 <= j < i ==> !Invalid(emb[j])
      {
        if emb[i].None? || !emb[i].value.Finite? {
          return Err(IllegalArgument(InvalidEmbeddingMessage));
        }
      }
      r := store.Update(SetEmbedding(id, VectorLiteral(Rendered(emb, format))));
    }
  }
}
