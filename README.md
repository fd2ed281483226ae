# PDF chat service: a Dafny model

This project models the three services at the heart of a Spring Boot application that answers
questions about uploaded PDF documents:

- **OllamaClient** talks to a local Ollama LLM service. `generate` probes three generation
  endpoints in order (`/api/generate`, `/api/chat`, `/v1/chat/completions`). It follows a
  streaming reply with up to ten follow-up polls, and a short reply with up to five. It recognises
  five reply shapes and extracts the final answer from the raw text after an `Answer:` marker.
  `embed` asks `/api/embed` for an embedding and normalises the three reply shapes that carry one.
- **PdfIngestService** cuts a document's text into windows of 800 characters and keeps the
  non-empty trims. For each chunk it requests an embedding (with one retry), inserts a row, writes
  the metadata JSON, and writes the embedding as a pgvector literal after validating every element.
- **RagService** embeds a question (at most two attempts), fetches the six nearest chunks with a
  pgvector query, builds the prompt and passes it to `generate`.

The LLM service is a scripted network (module `Http`). Its `replies` field is the sequence of
replies the coming calls will receive, and `sent` records every request posted. A script that has
run out stands for a call that times out. Each client operation is a method on that network,
proved equal to a function that returns a `Run`: the value, the replies left and the requests sent.
The lemmas are stated about these functions.

The database is class `Store.ChunkStore`. Its state is a `Db` value: the table of records, the
next identity value and the log of statements issued. A set of refused statements decides which
ones throw, and a ranking function stands for pgvector's distance order.

The generation endpoint loop is the function `Ollama.ProbeRun`. One endpoint's exchange is a small
state machine, `Ollama.StageRun`, with these stages:

1. first reply,
2. classified shape,
3. streaming poll,
4. short poll,
5. short candidate.

The polling loops of `OllamaClient` are proved equal to it.

`Rag.RagService.Respond` is the second half of `answerQuestion`, from the similarity search on,
split out as its own method. The prompt texts of `buildPrompt` are held in a `Rag.Template` value.
The service's constructor sets it to `Rag.Standard`, the literal texts of the source.

Behaviours of the code that are easy to miss:

- `generate(null)` does not return the empty string. `generateRaw` returns `""`, which
  `extractFinalAnswer` counts as one word, so the result is the placeholder
  (`OllamaLemmas.GenerateNullPrompt`).
- An empty prompt is not special: it is sent to the service like any other.
- An output consisting of `Answer:` alone does not match `Answer:\s*(.+)`, because the group needs at
  least one character. It falls to the two-word rule and gives the placeholder through that rule,
  not through the bare-label rule (`Extraction.LoneMarker`).
- The chunk overlap has no effect. `Math.max(end - overlap, end)` is `end` for every non-negative
  overlap, so the windows never overlap (`PdfIngest.OverlapHasNoEffect`).

## Model

| member | source | states |
|---|---|---|
| Ollama.OllamaClient.Generate | demo-for-pdf-chat-AI-application/src/main/java/com/ai/pdfchat/client/OllamaClient.java:38-42 | the answer, the replies consumed and the requests sent are those of GenerateRun: the raw outcome passed through extractFinalAnswer, an exception passed on unchanged |
| Ollama.OllamaClient.GenerateRaw | demo-for-pdf-chat-AI-application/src/main/java/com/ai/pdfchat/client/OllamaClient.java:47-179 | the endpoint loop equals ProbeRun from endpoint 0: a null prompt returns "" without a call; the first endpoint that yields text wins, for every endpoint (OllamaLemmas.AttemptTextEndsProbing); IllegalStateException with the source's message exactly when every attempt yields nothing (OllamaLemmas.ProbeFailsIff) |
| Ollama.OllamaClient.Attempt | demo-for-pdf-chat-AI-application/src/main/java/com/ai/pdfchat/client/OllamaClient.java:58-73 | one endpoint's attempt equals AttemptRun: an endpoint whose body cannot be built (OpenAI body with a null model) fails without a call |
| Ollama.OllamaClient.Exchange | demo-for-pdf-chat-AI-application/src/main/java/com/ai/pdfchat/client/OllamaClient.java:62-73 | one POST, then a null reply, a 404 or an exception abandons the endpoint; a parsed body continues as StageRun |
| Ollama.OllamaClient.FollowReply | demo-for-pdf-chat-AI-application/src/main/java/com/ai/pdfchat/client/OllamaClient.java:76-165 | a parsed reply is classified and continued by the streaming poll, returned as text, or continued by the short poll, as StageRun says |
| Ollama.OllamaClient.ClassifyReply | demo-for-pdf-chat-AI-application/src/main/java/com/ai/pdfchat/client/OllamaClient.java:78-165 | the shape the if-chain computes is Classify: the first applicable rule among streaming, output, choices, results, messages, short and serialized |
| Ollama.OllamaClient.StreamPoll | demo-for-pdf-chat-AI-application/src/main/java/com/ai/pdfchat/client/OllamaClient.java:82-97 | the polling loop equals StageRun's streaming stage: follow-ups while not done and fewer than 10 polls; a null follow-up keeps the text so far, an exception abandons the endpoint; the result is the last response seen (OllamaLemmas.StreamingResult) |
| Ollama.OllamaClient.ShortPoll | demo-for-pdf-chat-AI-application/src/main/java/com/ai/pdfchat/client/OllamaClient.java:136-162 | the short-poll loop equals StageRun's short stage: at most 5 follow-ups, a candidate longer than 20 characters returned at once, the last candidate after the fifth or after a null follow-up (OllamaLemmas.ShortPollResult) |
| Ollama.OllamaClient.ShortUpdate | demo-for-pdf-chat-AI-application/src/main/java/com/ai/pdfchat/client/OllamaClient.java:145-158 | one short-poll reply updates the candidate as ShortCandidate says; an empty choices array makes get(0) null and ends the attempt |
| Ollama.OllamaClient.ConcatOutput | demo-for-pdf-chat-AI-application/src/main/java/com/ai/pdfchat/client/OllamaClient.java:101-105 | the StringBuilder loop over output yields OutputText, the concatenated asText of every element |
| Ollama.OllamaClient.ConcatMessages | demo-for-pdf-chat-AI-application/src/main/java/com/ai/pdfchat/client/OllamaClient.java:126-132 | the StringBuilder loop over messages yields MessagesText: each message's text then its content, where present |
| Ollama.OllamaClient.Embed | demo-for-pdf-chat-AI-application/src/main/java/com/ai/pdfchat/client/OllamaClient.java:219-271 | embed equals EmbedRun: null text makes no call; one POST to /api/embed; a failed call, a null body or a reply without a vector gives null; the keys embedding, embeddings and data are consulted in that order (OllamaLemmas.EmbeddingKeyFirst, EmbeddingsKeySecond, DataKeyLast) |
| OllamaLemmas.StageBudget | demo-for-pdf-chat-AI-application/src/main/java/com/ai/pdfchat/client/OllamaClient.java:82-161 | an attempt makes at most Budget(stage) follow-up calls: 10 for a streaming reply, 5 for a short one, none for a text |
| OllamaLemmas.StageRepeats | demo-for-pdf-chat-AI-application/src/main/java/com/ai/pdfchat/client/OllamaClient.java:86-141 | every follow-up call repeats the attempt's own request, same endpoint and same body |
| OllamaLemmas.StageRequests | demo-for-pdf-chat-AI-application/src/main/java/com/ai/pdfchat/client/OllamaClient.java:76-162 | both bounds at once: at most Budget(stage) follow-ups, each repeating the request |
| OllamaLemmas.AttemptRequests | demo-for-pdf-chat-AI-application/src/main/java/com/ai/pdfchat/client/OllamaClient.java:58-73 | one attempt sends at most 11 requests, all to its endpoint and well formed, and none exactly when the body cannot be built |
| OllamaLemmas.ProbeCount | demo-for-pdf-chat-AI-application/src/main/java/com/ai/pdfchat/client/OllamaClient.java:56-58 | probing from endpoint k sends at most 11 requests per remaining endpoint |
| OllamaLemmas.ProbeRequests | demo-for-pdf-chat-AI-application/src/main/java/com/ai/pdfchat/client/OllamaClient.java:56-73 | probing from endpoint k sends only well-formed requests to endpoints k and later, in probing order |
| OllamaLemmas.GenerateRequests | demo-for-pdf-chat-AI-application/src/main/java/com/ai/pdfchat/client/OllamaClient.java:47-73 | generateRaw on a prompt sends 1 to 33 requests, the first to /api/generate with model mistral, the prompt and max_tokens 1024, all well formed and in endpoint order |
| OllamaLemmas.ClassifyFirstRule | demo-for-pdf-chat-AI-application/src/main/java/com/ai/pdfchat/client/OllamaClient.java:78-165 | a reply's shape is what rule k makes of it whenever rule k applies and no earlier rule does |
| OllamaLemmas.GenerateNullPrompt | demo-for-pdf-chat-AI-application/src/main/java/com/ai/pdfchat/client/OllamaClient.java:38-48 | generate(null) makes no call and returns the placeholder |
| OllamaLemmas.FirstTextWins | demo-for-pdf-chat-AI-application/src/main/java/com/ai/pdfchat/client/OllamaClient.java:99-133 | when /api/generate's first reply classifies to a text, that text is the raw result after exactly one request |
| OllamaLemmas.UnparsedReplyMovesOn | demo-for-pdf-chat-AI-application/src/main/java/com/ai/pdfchat/client/OllamaClient.java:68-73 | a first reply that is not a parsed body moves on to the next endpoint after exactly one request |
| OllamaLemmas.AllEndpointsFail | demo-for-pdf-chat-AI-application/src/main/java/com/ai/pdfchat/client/OllamaClient.java:167-178 | three unparsed first replies: the three requests in endpoint order, then the exception |
| OllamaLemmas.NullModelSkipsOpenAI | demo-for-pdf-chat-AI-application/src/main/java/com/ai/pdfchat/client/OllamaClient.java:214-216 | with a null generation model the OpenAI endpoint is skipped without a call: two requests, then the exception |
| OllamaLemmas.UnreachableService | demo-for-pdf-chat-AI-application/src/main/java/com/ai/pdfchat/client/OllamaClient.java:167-178 | with every call timing out all three endpoints are tried once and generate throws |
| OllamaLemmas.DoneStopsPolling | demo-for-pdf-chat-AI-application/src/main/java/com/ai/pdfchat/client/OllamaClient.java:83 | a reply already marked done makes no follow-up and returns its text |
| OllamaLemmas.FollowUpEndsPolling | demo-for-pdf-chat-AI-application/src/main/java/com/ai/pdfchat/client/OllamaClient.java:86-91 | a null follow-up ends the poll with the text so far; an exception abandons the endpoint; either after one request |
| OllamaLemmas.StreamingBound | demo-for-pdf-chat-AI-application/src/main/java/com/ai/pdfchat/client/OllamaClient.java:82-97 | the streaming poll makes at most 10 follow-ups, all repeating the first request |
| OllamaLemmas.StreamingExample | demo-for-pdf-chat-AI-application/src/main/java/com/ai/pdfchat/client/OllamaClient.java:78-97 | "Pa" not done, then "Paris" done: the result is "Paris" after two identical requests |
| OllamaLemmas.LongCandidateReturned | demo-for-pdf-chat-AI-application/src/main/java/com/ai/pdfchat/client/OllamaClient.java:159 | a short-poll candidate longer than 20 characters is returned at once |
| OllamaLemmas.EmptyChoicesAbandons | demo-for-pdf-chat-AI-application/src/main/java/com/ai/pdfchat/client/OllamaClient.java:153-156 | an empty choices array in a short-poll reply ends the attempt with no text |
| OllamaLemmas.ShortPollBound | demo-for-pdf-chat-AI-application/src/main/java/com/ai/pdfchat/client/OllamaClient.java:139 | the short-poll fallback makes at most 5 follow-ups |
| OllamaLemmas.ShortPollsExhausted | demo-for-pdf-chat-AI-application/src/main/java/com/ai/pdfchat/client/OllamaClient.java:139-162 | follow-ups that never extend the candidate: the last candidate after exactly the remaining polls |
| OllamaLemmas.EmbeddingShapesAgree | demo-for-pdf-chat-AI-application/src/main/java/com/ai/pdfchat/client/OllamaClient.java:245-257 | the embedding, embeddings and data replies carrying the same vector all normalise to it |
| OllamaLemmas.FlatEmbeddings | demo-for-pdf-chat-AI-application/src/main/java/com/ai/pdfchat/client/OllamaClient.java:249-252 | a flat embeddings array is taken as the vector itself |
| OllamaLemmas.EmbedFailures | demo-for-pdf-chat-AI-application/src/main/java/com/ai/pdfchat/client/OllamaClient.java:219-239 | embed(null) makes no call; a failed call or null body gives null after one request |
| OllamaLemmas.AttemptTextEndsProbing | demo-for-pdf-chat-AI-application/src/main/java/com/ai/pdfchat/client/OllamaClient.java:56-73 | when the attempt at endpoint k yields a text, probing from k returns that text, and every request it sent went to endpoint k |
| OllamaLemmas.ProbeFailsIff | demo-for-pdf-chat-AI-application/src/main/java/com/ai/pdfchat/client/OllamaClient.java:56-178 | probing from any endpoint k throws exactly when every attempt from k on yields nothing, and the exception is IllegalStateException with the source's message |
| OllamaLemmas.StreamingResult | demo-for-pdf-chat-AI-application/src/main/java/com/ai/pdfchat/client/OllamaClient.java:82-97 | the streaming poll returns the response of the last reply that carries one, or the first reply's text; and nothing when a follow-up raised an exception or timed out |
| OllamaLemmas.ShortPollResult | demo-for-pdf-chat-AI-application/src/main/java/com/ai/pdfchat/client/OllamaClient.java:136-162 | the short poll returns the candidate CandidateAfter folds from the replies it read, nothing after a timeout, and a short candidate before the fifth follow-up only after a null follow-up |
| OllamaLemmas.EmbeddingKeyFirst | demo-for-pdf-chat-AI-application/src/main/java/com/ai/pdfchat/client/OllamaClient.java:246-247 | an embedding key holding an array decides the result whatever the other keys hold |
| OllamaLemmas.EmbeddingsKeySecond | demo-for-pdf-chat-AI-application/src/main/java/com/ai/pdfchat/client/OllamaClient.java:248-252 | without an embedding array, an embeddings array decides the result: its first element if that is an array, else itself |
| OllamaLemmas.DataKeyLast | demo-for-pdf-chat-AI-application/src/main/java/com/ai/pdfchat/client/OllamaClient.java:253-262 | data is consulted only when neither other key holds an array; a list comes back only from data[0].embedding holding an array |
| OllamaLemmas.EmbedNullIff | demo-for-pdf-chat-AI-application/src/main/java/com/ai/pdfchat/client/OllamaClient.java:259-270 | for a recognised vector the result is null exactly when some element does not convert; otherwise it has the vector's length and each element's conversion in order |
| Extraction.FindAnswer | demo-for-pdf-chat-AI-application/src/main/java/com/ai/pdfchat/client/OllamaClient.java:189-191 | a match found lies at or after the start, is the marker ignoring case, and has at least one unit after it |
| Extraction.SkipRegexSpace | demo-for-pdf-chat-AI-application/src/main/java/com/ai/pdfchat/client/OllamaClient.java:189 | the greedy \s* ends at the first non-space unit, or at the end |
| Extraction.FindAnswerFrom | demo-for-pdf-chat-AI-application/src/main/java/com/ai/pdfchat/client/OllamaClient.java:189-191 | the search from a position succeeds at i exactly when i is the first marker from there with text after it |
| Extraction.FindIsLeftmostMarker | demo-for-pdf-chat-AI-application/src/main/java/com/ai/pdfchat/client/OllamaClient.java:189-191 | find() succeeds at i exactly when i is the leftmost marker in the text and the marker does not end it |
| Extraction.FindAnswerNoneFrom | demo-for-pdf-chat-AI-application/src/main/java/com/ai/pdfchat/client/OllamaClient.java:189-191 | the search from a position fails exactly when every marker from there ends the text |
| Extraction.FindFailsOnlyAtEnd | demo-for-pdf-chat-AI-application/src/main/java/com/ai/pdfchat/client/OllamaClient.java:189-191 | find() fails exactly when every marker ends the text |
| Extraction.Group1Trim | demo-for-pdf-chat-AI-application/src/main/java/com/ai/pdfchat/client/OllamaClient.java:191-192 | the trimmed group(1) is the trimmed remainder after the colon |
| Extraction.MarkerFound | demo-for-pdf-chat-AI-application/src/main/java/com/ai/pdfchat/client/OllamaClient.java:191-200 | with a marker whose trimmed remainder is neither empty nor "Answer", the answer is that remainder |
| Extraction.BareLabel | demo-for-pdf-chat-AI-application/src/main/java/com/ai/pdfchat/client/OllamaClient.java:193-198 | with only a bare label after the marker, the trimmed text if longer than 10 characters, else the placeholder |
| Extraction.NoMarker | demo-for-pdf-chat-AI-application/src/main/java/com/ai/pdfchat/client/OllamaClient.java:202-210 | without a match, the placeholder for at most two words, else the trimmed text |
| Extraction.AnswerIsTrimmed | demo-for-pdf-chat-AI-application/src/main/java/com/ai/pdfchat/client/OllamaClient.java:185-211 | every extracted answer is its own trim |
| Extraction.OneWordIsIncomplete | demo-for-pdf-chat-AI-application/src/main/java/com/ai/pdfchat/client/OllamaClient.java:202-206 | a text without a match and without inner spaces gives the placeholder |
| Extraction.EmptyIsIncomplete | demo-for-pdf-chat-AI-application/src/main/java/com/ai/pdfchat/client/OllamaClient.java:202-206 | the empty text gives the placeholder |
| Extraction.LoneMarker | demo-for-pdf-chat-AI-application/src/main/java/com/ai/pdfchat/client/OllamaClient.java:189-206 | an output that is exactly the marker, in any case, does not match and gives the placeholder |
| Extraction.LabelledText | demo-for-pdf-chat-AI-application/src/main/java/com/ai/pdfchat/client/OllamaClient.java:189-200 | "Answer: " before a trimmed text that is not the bare label gives that text back |
| Extraction.LabelledAnswer | demo-for-pdf-chat-AI-application/src/main/java/com/ai/pdfchat/client/OllamaClient.java:189-200 | "Answer: Paris is the capital [1]." gives "Paris is the capital [1]." |
| JavaText.Trim | demo-for-pdf-chat-AI-application/src/main/java/com/ai/pdfchat/client/OllamaClient.java:192 | trim() is no longer than its input and starts and ends above U+0020 |
| JavaText.TrimIdempotent | demo-for-pdf-chat-AI-application/src/main/java/com/ai/pdfchat/client/OllamaClient.java:204 | trimming twice is trimming once |
| JavaText.SplitLengthOfWord | demo-for-pdf-chat-AI-application/src/main/java/com/ai/pdfchat/client/OllamaClient.java:205 | a string without \s is one element of split("\\s+") |
| JavaText.SplitLengthJoin | demo-for-pdf-chat-AI-application/src/main/java/com/ai/pdfchat/client/OllamaClient.java:205 | a word joined to a text by one space adds one element to split("\\s+") |
| JavaText.SplitJoinRoundTrip | demo-for-pdf-chat-AI-application/src/main/java/com/ai/pdfchat/service/PdfIngestService.java:112-117 | splitting a join at its one-character separator gives the parts back when no part holds it |
| JsonNode.Element | demo-for-pdf-chat-AI-application/src/main/java/com/ai/pdfchat/client/OllamaClient.java:155 | get(index) is a node exactly when the node is an array and the index is in bounds |
| JsonNode.ConvertList | demo-for-pdf-chat-AI-application/src/main/java/com/ai/pdfchat/client/OllamaClient.java:266 | the conversion to List<Double> succeeds exactly when every element converts, and then keeps length and order |
| Http.Network.Post | demo-for-pdf-chat-AI-application/src/main/java/com/ai/pdfchat/client/OllamaClient.java:64-68 | one blocking POST receives the next scripted reply and is recorded as sent |
| Store.ChunkStore.Save | demo-for-pdf-chat-AI-application/src/main/java/com/ai/pdfchat/service/PdfIngestService.java:67-71 | save() equals SaveDb: the record gets the next identity value, or the insert throws and nothing changes |
| Store.ChunkStore.Update | demo-for-pdf-chat-AI-application/src/main/java/com/ai/pdfchat/service/PdfIngestService.java:121-129 | jdbc.update equals UpdateDb on the state |
| Store.ChunkStore.Query | demo-for-pdf-chat-AI-application/src/main/java/com/ai/pdfchat/service/RagService.java:30-31 | queryForList equals QueryDb: the first rows of the ranking, at most the limit |
| Store.Take | demo-for-pdf-chat-AI-application/src/main/java/com/ai/pdfchat/service/RagService.java:30 | LIMIT keeps the first min(limit, count) rows of the ranking, in order |
| Store.VectorLiteral | demo-for-pdf-chat-AI-application/src/main/java/com/ai/pdfchat/service/PdfIngestService.java:112-117 | the literal opens with '[' and ends with ']' |
| Store.VectorLiteralParts | demo-for-pdf-chat-AI-application/src/main/java/com/ai/pdfchat/service/PdfIngestService.java:112-117 | the elements can be read back from the literal when none of them holds a comma |
| Store.SaveKeepsValid | demo-for-pdf-chat-AI-application/src/main/java/com/ai/pdfchat/service/PdfIngestService.java:71 | save() hands out an identity value not in use, stores the record there, and keeps every other record |
| Store.UpdateTouchesOneRow | demo-for-pdf-chat-AI-application/src/main/java/com/ai/pdfchat/service/PdfIngestService.java:121-129 | an UPDATE changes one column of the matching row only, and reports 1 exactly when that row exists |
| PdfIngest.NextStart | demo-for-pdf-chat-AI-application/src/main/java/com/ai/pdfchat/service/PdfIngestService.java:149 | the next window starts at or after the end of the last, and exactly there for a non-negative overlap |
| PdfIngest.OverlapHasNoEffect | demo-for-pdf-chat-AI-application/src/main/java/com/ai/pdfchat/service/PdfIngestService.java:149 | with a non-negative overlap the chunks are those of non-overlapping windows |
| PdfIngest.WindowsCoverText | demo-for-pdf-chat-AI-application/src/main/java/com/ai/pdfchat/service/PdfIngestService.java:143-150 | the windows put back together are the text from the start |
| PdfIngest.WindowAt | demo-for-pdf-chat-AI-application/src/main/java/com/ai/pdfchat/service/PdfIngestService.java:144-146 | window k covers [start + k·size, min(length, start + (k+1)·size)) |
| PdfIngest.WindowSpan | demo-for-pdf-chat-AI-application/src/main/java/com/ai/pdfchat/service/PdfIngestService.java:144-150 | every window but the last is full, and the last is not empty |
| PdfIngest.WindowCount | demo-for-pdf-chat-AI-application/src/main/java/com/ai/pdfchat/service/PdfIngestService.java:141-152 | there are ⌈(length - start) / size⌉ windows |
| PdfIngest.EmittedShape | demo-for-pdf-chat-AI-application/src/main/java/com/ai/pdfchat/service/PdfIngestService.java:146-147 | filtering only drops windows: no more chunks than windows, none empty, each trimmed |
| PdfIngest.EmittedFromWindows | demo-for-pdf-chat-AI-application/src/main/java/com/ai/pdfchat/service/PdfIngestService.java:146-147 | every chunk is the trim of one of the windows |
| PdfIngest.ChunksAreTrimmedWindows | demo-for-pdf-chat-AI-application/src/main/java/com/ai/pdfchat/service/PdfIngestService.java:141-152 | chunkText gives the non-empty trims of ⌈length / size⌉ windows that cover the text, the same as with no overlap |
| PdfIngest.EmptyTextNoChunks | demo-for-pdf-chat-AI-application/src/main/java/com/ai/pdfchat/service/PdfIngestService.java:144 | empty text gives no chunks |
| PdfIngest.HasInvalid | demo-for-pdf-chat-AI-application/src/main/java/com/ai/pdfchat/service/PdfIngestService.java:106-110 | true exactly when some element is null, NaN or infinite |
| PdfIngest.Rendered | demo-for-pdf-chat-AI-application/src/main/java/com/ai/pdfchat/service/PdfIngestService.java:112-116 | one %.12f rendering per element, in order |
| PdfIngest.PdfIngestService.ChunkText | demo-for-pdf-chat-AI-application/src/main/java/com/ai/pdfchat/service/PdfIngestService.java:141-152 | the window loop yields ChunkFrom from window 0 |
| PdfIngest.PdfIngestService.Ingest | demo-for-pdf-chat-AI-application/src/main/java/com/ai/pdfchat/service/PdfIngestService.java:44-99 | the chunk loop equals IngestFrom over chunkText(text, 800, 150): the failure ending it, the database and the requests sent |
| PdfIngest.PdfIngestService.EmbedWithRetry | demo-for-pdf-chat-AI-application/src/main/java/com/ai/pdfchat/service/PdfIngestService.java:53-62 | the embedding step equals EmbedWithRetryRun: one embed call, and a second when the first gave null or an empty list |
| PdfIngest.PdfIngestService.StoreChunk | demo-for-pdf-chat-AI-application/src/main/java/com/ai/pdfchat/service/PdfIngestService.java:66-97 | the insert, the metadata update and the embedding update of one chunk equal StoreChunkDb |
| PdfIngest.PdfIngestService.SaveMetadata | demo-for-pdf-chat-AI-application/src/main/java/com/ai/pdfchat/service/PdfIngestService.java:127-130 | saveMetadata equals the metadata UPDATE on the state |
| PdfIngest.PdfIngestService.SaveEmbedding | demo-for-pdf-chat-AI-application/src/main/java/com/ai/pdfchat/service/PdfIngestService.java:102-124 | the validation loop and the UPDATE equal SaveEmbeddingDb |
| IngestLemmas.EmbedRetriesOnce | demo-for-pdf-chat-AI-application/src/main/java/com/ai/pdfchat/service/PdfIngestService.java:53-59 | the embedding is requested once, and a second time exactly when the first answer is null or empty, whose answer is then used |
| IngestLemmas.EmbedRetryRequests | demo-for-pdf-chat-AI-application/src/main/java/com/ai/pdfchat/service/PdfIngestService.java:53-59 | the embedding step sends its chunk's request once or twice and nothing else |
| IngestLemmas.SaveEmbeddingGuards | demo-for-pdf-chat-AI-application/src/main/java/com/ai/pdfchat/service/PdfIngestService.java:102-123 | an empty list writes nothing and returns 0; an invalid element throws before any write; otherwise one UPDATE with the literal |
| IngestLemmas.EmbeddingLiteralRoundTrip | demo-for-pdf-chat-AI-application/src/main/java/com/ai/pdfchat/service/PdfIngestService.java:112-117 | the literal lists every element's rendering, in order |
| IngestLemmas.UpdateKeeps | demo-for-pdf-chat-AI-application/src/main/java/com/ai/pdfchat/service/PdfIngestService.java:121-129 | an UPDATE keeps every record's source, index and content |
| IngestLemmas.SaveEmbeddingKeeps | demo-for-pdf-chat-AI-application/src/main/java/com/ai/pdfchat/service/PdfIngestService.java:102-123 | saveEmbedding keeps the records and issues only the UPDATE of its own literal |
| IngestLemmas.StoreChunkEffect | demo-for-pdf-chat-AI-application/src/main/java/com/ai/pdfchat/service/PdfIngestService.java:66-97 | one chunk is inserted under the next id or the insert throws; a null file name throws after the insert; otherwise the metadata UPDATE follows the insert |
| IngestLemmas.NoEmbeddingNoUpdate | demo-for-pdf-chat-AI-application/src/main/java/com/ai/pdfchat/service/PdfIngestService.java:84-87 | an embedding that did not come back is never written |
| IngestLemmas.IngestSavesEveryChunk | demo-for-pdf-chat-AI-application/src/main/java/com/ai/pdfchat/service/PdfIngestService.java:48-81 | with a file name and accepted inserts, chunk j becomes the j-th new record with index j and its content, and existing records are kept |
| IngestLemmas.IngestRequestCount | demo-for-pdf-chat-AI-application/src/main/java/com/ai/pdfchat/service/PdfIngestService.java:48-59 | each chunk costs one or two embedding requests, the first for the first chunk |
| IngestLemmas.IngestRequestTargets | demo-for-pdf-chat-AI-application/src/main/java/com/ai/pdfchat/service/PdfIngestService.java:48-59 | every request the ingest sends embeds one of its chunks |
| IngestLemmas.IngestRequests | demo-for-pdf-chat-AI-application/src/main/java/com/ai/pdfchat/service/PdfIngestService.java:48-59 | both together: between one and two requests per chunk, each embedding one of the chunks |
| IngestLemmas.NullSourceStopsAfterFirstInsert | demo-for-pdf-chat-AI-application/src/main/java/com/ai/pdfchat/service/PdfIngestService.java:67-75 | a null file name: the first chunk is embedded and inserted, then the metadata map throws and the ingest stops |
| IngestLemmas.NothingToIngest | demo-for-pdf-chat-AI-application/src/main/java/com/ai/pdfchat/service/PdfIngestService.java:48 | no chunks: nothing stored and no request |
| Rag.Texts | demo-for-pdf-chat-AI-application/src/main/java/com/ai/pdfchat/service/RagService.java:29 | one Double.toString per element, in order |
| Rag.HasNull | demo-for-pdf-chat-AI-application/src/main/java/com/ai/pdfchat/service/RagService.java:29 | true exactly when some element is null |
| Rag.ExcerptsSnoc | demo-for-pdf-chat-AI-application/src/main/java/com/ai/pdfchat/service/RagService.java:88-92 | appending a row appends its excerpt, numbered after the others |
| Rag.RagService.SimilaritySearch | demo-for-pdf-chat-AI-application/src/main/java/com/ai/pdfchat/service/RagService.java:28-32 | similaritySearch equals SearchDb on the state |
| Rag.RagService.EmbedWithRetry | demo-for-pdf-chat-AI-application/src/main/java/com/ai/pdfchat/service/RagService.java:60-78 | the retry loop equals RetryRun: up to n embed calls, stopping at the first non-empty list, which is returned (RagLemmas.RetryFirstUsable, RagLemmas.RetryNullIff) |
| Rag.RagService.BuildPrompt | demo-for-pdf-chat-AI-application/src/main/java/com/ai/pdfchat/service/RagService.java:81-110 | the StringBuilder loop yields Prompt: the preamble, the numbered excerpts, the question and the closing text |
| Rag.RagService.AnswerQuestion | demo-for-pdf-chat-AI-application/src/main/java/com/ai/pdfchat/service/RagService.java:35-58 | answerQuestion equals AnswerRun: the validation, then IllegalStateException for an unusable embedding (RagLemmas.NoEmbeddingFails), then the no-excerpts reply or the generated answer (RagLemmas.AnswerOutcome) |
| Rag.RagService.Respond | demo-for-pdf-chat-AI-application/src/main/java/com/ai/pdfchat/service/RagService.java:49-57 | from the search on equals RespondRun: the no-excerpts reply, or the generated answer for the built prompt (RagLemmas.RespondOutcome) |
| RagLemmas.RetryAttempts | demo-for-pdf-chat-AI-application/src/main/java/com/ai/pdfchat/service/RagService.java:60-78 | n ≤ 0 makes no call; otherwise 1 to n requests, all for the text, and exactly n when none gave a usable list |
| RagLemmas.RetryFirstUsable | demo-for-pdf-chat-AI-application/src/main/java/com/ai/pdfchat/service/RagService.java:60-70 | when attempts 1 to j - 1 give null or an empty list and attempt j (j ≤ n) a non-empty one, the result is attempt j's list, after exactly j requests |
| RagLemmas.RetryNullIff | demo-for-pdf-chat-AI-application/src/main/java/com/ai/pdfchat/service/RagService.java:60-78 | the result is null or a non-empty list, and null exactly when all n attempts gave null or an empty list |
| RagLemmas.NoEmbeddingFails | demo-for-pdf-chat-AI-application/src/main/java/com/ai/pdfchat/service/RagService.java:41-46 | a non-blank question whose embedding is null or empty fails with IllegalStateException and the source's message, leaving the database unchanged, for every reply script |
| RagLemmas.RespondOutcome | demo-for-pdf-chat-AI-application/src/main/java/com/ai/pdfchat/service/RagService.java:28-57 | a null element throws with nothing issued; otherwise the LIMIT 6 query is logged, a refused one throws, no rows give the no-excerpts reply with no request, and rows give generate's result on the prompt built from exactly those rows |
| RagLemmas.AnswerOutcome | demo-for-pdf-chat-AI-application/src/main/java/com/ai/pdfchat/service/RagService.java:35-58 | with a usable embedding, answerQuestion's outcome is RespondOutcome's on that embedding, after the embedding requests |
| RagLemmas.UnreachableEmbedding | demo-for-pdf-chat-AI-application/src/main/java/com/ai/pdfchat/service/RagService.java:41-46 | with the service unreachable both attempts are made and the question fails with IllegalStateException |
| RagLemmas.BlankQuestionRefused | demo-for-pdf-chat-AI-application/src/main/java/com/ai/pdfchat/service/RagService.java:36-38 | a question is refused before any call exactly when it is null or blank |
| RagLemmas.SearchNullElement | demo-for-pdf-chat-AI-application/src/main/java/com/ai/pdfchat/service/RagService.java:29 | a null element throws before any statement is issued |
| RagLemmas.SearchStatement | demo-for-pdf-chat-AI-application/src/main/java/com/ai/pdfchat/service/RagService.java:28-32 | otherwise one nearest-neighbour statement with the literal and k, which throws exactly when refused, and at most k rows of the ranking |
| RagLemmas.GenerationNeedsExcerpts | demo-for-pdf-chat-AI-application/src/main/java/com/ai/pdfchat/service/RagService.java:41-56 | the embedding requests come first; a generation request follows exactly when the embedding and the search give at least one row, and it carries the prompt built from those rows; otherwise nothing else is sent |
| RagLemmas.AnswersAreTrimmed | demo-for-pdf-chat-AI-application/src/main/java/com/ai/pdfchat/service/RagService.java:49-57 | every answer is the no-excerpts reply or an extracted, trimmed answer |
| RagLemmas.ExcerptNumbering | demo-for-pdf-chat-AI-application/src/main/java/com/ai/pdfchat/service/RagService.java:88-92 | excerpt k is numbered n + k and sits between the excerpts before and after it |
| RagLemmas.ExcerptShape | demo-for-pdf-chat-AI-application/src/main/java/com/ai/pdfchat/service/RagService.java:90-91 | an excerpt is the number in brackets, a space, the content or "null", and a blank line |
| RagLemmas.AssembleShape | demo-for-pdf-chat-AI-application/src/main/java/com/ai/pdfchat/service/RagService.java:81-110 | the prompt layout puts each part at its offset |
| RagLemmas.FixedText | demo-for-pdf-chat-AI-application/src/main/java/com/ai/pdfchat/service/RagService.java:84-108 | the standard preamble opens with "System: " and the closing text ends with the cue "Answer:" |
| RagLemmas.PromptShape | demo-for-pdf-chat-AI-application/src/main/java/com/ai/pdfchat/service/RagService.java:81-110 | a prompt holds the preamble, the excerpts, the question header and question, and the closing text, each at its offset |
| RagLemmas.PromptOpensAndCloses | demo-for-pdf-chat-AI-application/src/main/java/com/ai/pdfchat/service/RagService.java:84-108 | a prompt opens with the system tag and ends with the cue whenever its template does |

## Left out

- HTTP transport, WebClient and the 300 s and 10 s timeouts are left out. A reply script stands for the service, and an exhausted script stands for a call that times out.
- The sleeps are left out, because time is not modelled: the 300·attempt ms back-off of embedWithRetry, and generateRaw's poll sleeps (800·poll ms at OllamaClient.java line 85, 600·(p + 1) ms at line 140).
- Logging is left out. It has no effect on results.
- Jackson's JsonNode.toString, the asText and asBoolean views of numbers, and convertValue's coercion of string elements are parameters (`show`, the `Number` views, `coerce`). Jackson's text is not part of this model.
- The metadata JSON written by writeValueAsString is the value `Store.Metadata(source, chunkIndex)`, not its text.
- String.format(Locale.US, "%.12f", d) and Double.toString are parameters (`format`, `toText`). Only the validation of null, NaN and the infinities is modelled.
- The database is abstract. A set of refused statements decides which statements throw, and a ranking function stands for pgvector's `<->` order. The SQL text, the jsonb and vector casts and transactions are not modelled. JDBC identity values are `nextId`.
- PDFBox's extractText(file) is left out: Ingest takes the extracted text and the original file name.
- The controller, the entity, the repository interface, the configuration properties and FloatArrayToVectorConverter are not part of this model.
- Only text inside the Basic Multilingual Plane is modelled. A Dafny char is a Unicode scalar value and a Java char a UTF-16 code unit; they agree there, but a supplementary character counts 1 here and 2 in Java. That would shift the 800-unit windows of chunkText, the length tests (> 10, < 30, > 20) and the positions trim works on.
- equalsIgnoreCase and the regex flag (?i) are modelled with ASCII case pairs only.
- The catch around embed in ingest (lines 60-62) and in embedWithRetry (lines 70-72) has no counterpart, because embed catches every failure itself and returns null.
- The `answer == null ? "" : answer` of answerQuestion has no counterpart, because generate never returns null.
- Java int overflow of chunk indices, the prompt counter and `start + chunkSize` is not modelled.
- PdfIngest.PdfIngestService.ChunkText: requires size > 0. The source loops forever for size 0 and throws from substring for a negative size; its only caller passes 800.
- Rag.RagService.SimilaritySearch: k is a nat. A negative LIMIT is an SQL error that is not modelled; the only caller passes 6.
- Concurrency is left out. Two requests served at once by the same services are not modelled.
- Rag.RagService.EmbedWithRetry: takes a non-null text. Java's public method accepts null (embed(null) makes no request, so it returns null after maxAttempts), but the only caller (RagService.java line 41) passes a question already checked to be non-null.
