/**
 * RagService: a question is embedded (with retries), the nearest chunks are fetched, and the
 * prompt built from them goes to generate.
 */
module Rag {
  import opened Wrappers
  import opened JavaText
  import opened JsonNode
  import opened Http
  import opened Ollama
  import opened Store

  const TopK: nat := 6
  const EmbedAttempts: int := 2
  const BlankQuestionMessage: string := "question must not be null or blank"
  const NoEmbeddingMessage: string := "Failed to generate query embedding from Ollama"
  const NoExcerptsReply: string := "I couldn't find any relevant document excerpts " + "to answer that."

  // ---------------------------------------------------------------------------------------
  // embedWithRetry

  /** embedWithRetry(text, n): up to n calls to embed, stopping at the first non-empty list. */
  function RetryRun(text: string, n: int, coerce: string -> Conversion, rs: seq<Reply>): Run<Option<seq<Option<Double>>>>
    decreases if n > 0 then n else 0
  {
    if n <= 0 then Run(None, rs, [])
    else
      var first := EmbedRun(Some(text), coerce, rs);
      if Usable(first.value) then first
      else After(first.sent, RetryRun(text, n - 1, coerce, first.rest))
  }

  // ---------------------------------------------------------------------------------------
  // similaritySearch

  /** The Double.toString of every element; a null element has no text. */
  function Texts(q: seq<Option<Double>>, toText: Double -> string): (parts: seq<string>)
    ensures |parts| == |q|
    ensures forall i :: 0 <= i < |q| && q[i].Some? ==> parts[i] == toText(q[i].value)
  {
    if |q| == 0 then []
    else [if q[0].Some? then toText(q[0].value) else ""] + Texts(q[1..], toText)
  }

  /** Whether q holds a null element. */
  function HasNull(q: seq<Option<Double>>): (b: bool)
    ensures b <==> exists i :: 0 <= i < |q| && q[i].None?
  {
    if |q| == 0 then false
    else if q[0].None? then true
    else
      var b := HasNull(q[1..]);
      assert forall i :: 1 <= i < |q| ==> q[i] == q[1..][i - 1];
      b
  }

  /** similaritySearch(q, k): a null element throws before the query is sent. */
  function SearchDb(db: Db, refused: set<Stmt>, ranking: (map<nat, Record>, string) -> seq<Row>,
                    toText: Double -> string, q: seq<Option<Double>>, k: nat): (Result<seq<Row>>, Db)
  {
    if HasNull(q) then (Err(NullPointer), db)
    else QueryDb(db, refused, ranking, VectorLiteral(Texts(q, toText)), k)
  }

  // ---------------------------------------------------------------------------------------
  // buildPrompt

  /** The role tag the prompt opens with. */
  const SystemTag: string := "System: "

  const Preamble: string :=
    SystemTag
    + "You are an assistant that answers user questions using ONLY the provided document excerpts. "
    + "If the answer is not found in those excerpts, reply exactly: \"I don't know\".\n\n"
    + "=== DOCUMENT EXCERPTS (use these only) ===\n"

  const QuestionHeader: string := "=== USER QUESTION ===\n"

  const Instructions: string :=
    "=== INSTRUCTIONS ===\n"
    + "- Provide one complete answer only. Start your final output with the literal prefix: "
    + "\"Answer: \" followed by the answer text.\n"
    + "- Do NOT return only the word \"Answer\". The text after the prefix must contain the actual answer.\n"
    + "- If you must cite an excerpt, include its number in square brackets, e.g. [2].\n"
    + "- If no answer is present in the excerpts, output exactly: \"I don't know\"\n\n"
    + "=== EXAMPLE ===\n"
    + "Question: What color is the sky?\n"
    + "Answer: The sky usually appears blue during the day due to Rayleigh scattering [1].\n\n"
    + "Now answer below.\n"

  /** The text buildPrompt appends last; the model is meant to continue it. */
  const Cue: string := "Answer:"

  /** Everything after the question. */
  const Closing: string := Instructions + Cue

  /** The fixed texts of a prompt: before the excerpts, before the question, after it. */
  datatype Template = Template(preamble: string, questionHeader: string, closing: string)

  /** The texts buildPrompt writes. */
  const Standard: Template := Template(Preamble, QuestionHeader, Closing)

  /** String.valueOf(c.get("content")). */
  function ContentText(content: Option<string>): string {
    match content
    case Some(c) => c
    case None => "null"
  }

  /** One excerpt: its number in brackets, then the row's content. */
  function Excerpt(n: nat, row: Row): string {
    "[" + DecimalString(n) + "] " + ContentText(row.content) + "\n\n"
  }

  /** The excerpts of rows, numbered from n. */
  function Excerpts(rows: seq<Row>, n: nat): string {
    if |rows| == 0 then "" else Excerpt(n, rows[0]) + Excerpts(rows[1..], n + 1)
  }

  /** The prompt's layout: the preamble, the excerpts, the question under its header, the closing text. */
  function Assemble(preamble: string, excerpts: string, header: string, question: string, closing: string): string {
    preamble + excerpts + header + question + "\n\n" + closing
  }

  /** buildPrompt(rows, question) with the fixed texts of t. */
  function Prompt(t: Template, rows: seq<Row>, question: string): string {
    Assemble(t.preamble, Excerpts(rows, 1), t.questionHeader, question, t.closing)
  }

  /** Appending a row appends its excerpt, numbered after the others. */
  lemma {:induction false} ExcerptsSnoc(rows: seq<Row>, row: Row, n: nat)
    ensures Excerpts(rows + [row], n) == Excerpts(rows, n) + Excerpt(n + |rows|, row)
  {
    if |rows| > 0 {
      assert (rows + [row])[1..] == rows[1..] + [row];
      ExcerptsSnoc(rows[1..], row, n + 1);
    }
  }

  // ---------------------------------------------------------------------------------------
  // answerQuestion

  /** The outcome of answerQuestion: its value, the database, and the network. */
  datatype Answered = Answered(value: Result<string>, db: Db, rest: seq<Reply>, sent: seq<Request>)

  /** answerQuestion from the similarity search on, once the question has an embedding. */
  function RespondRun(q: string, emb: seq<Option<Double>>, genModel: Option<string>, show: Json -> string,
                      refused: set<Stmt>, ranking: (map<nat, Record>, string) -> seq<Row>,
                      toText: Double -> string, t: Template, db: Db, rs: seq<Reply>): Answered
  {
    var (rows, db1) := SearchDb(db, refused, ranking, toText, emb, TopK);
    if rows.Err? then Answered(Err(rows.error), db1, rs, [])
    else if |rows.value| == 0 then Answered(Ok(NoExcerptsReply), db1, rs, [])
    else
      var G := GenerateRun(Some(Prompt(t, rows.value, q)), genModel, show, rs);
      Answered(G.value, db1, G.rest, G.sent)
  }

  /** answerQuestion(question), on the database and the service replies it finds. */
  function AnswerRun(question: Option<string>, coerce: string -> Conversion, genModel: Option<string>,
                     show: Json -> string, refused: set<Stmt>, ranking: (map<nat, Record>, string) -> seq<Row>,
                     toText: Double -> string, t: Template, db: Db, rs: seq<Reply>): Answered
  {
    if question.None? || IsBlank(question.value) then
      Answered(Err(IllegalArgument(BlankQuestionMessage)), db, rs, [])
    else
      var q := question.value;
      var E := RetryRun(q, EmbedAttempts, coerce, rs);
      if !Usable(E.value) then Answered(Err(IllegalState(NoEmbeddingMessage)), db, E.rest, E.sent)
      else
        var A := RespondRun(q, E.value.value, genModel, show, refused, ranking, toText, t, db, E.rest);
        Answered(A.value, A.db, A.rest, E.sent + A.sent)
  }

  class RagService {
    const client: OllamaClient
    const store: ChunkStore
    /** Double.toString. */
    const toText: Double -> string
    /** The fixed texts of the prompt. */
    const template: Template

    constructor (client: OllamaClient, store: ChunkStore, toText: Double -> string)
      ensures this.client == client && this.store == store && this.toText == toText
      ensures template == Standard
    {
      this.client := client;
      this.store := store;
      this.toText := toText;
      template := Standard;
    }

    /** similaritySearch(q, k). */
    method SimilaritySearch(q: seq<Option<Double>>, k: nat) returns (r: Result<seq<Row>>)
      modifies store
      ensures (r, store.State()) == SearchDb(old(store.State()), store.refused, store.ranking, toText, q, k)
    {
      if HasNull(q) {
        return Err(NullPointer);
      }
      r := store.Query(VectorLiteral(Texts(q, toText)), k);
    }

    /** embedWithRetry(text, maxAttempts). */
    method EmbedWithRetry(text: string, maxAttempts: int) returns (emb: Option<seq<Option<Double>>>)
      modifies client.net
      ensures var R := RetryRun(text, maxAttempts, client.coerce, old(client.net.replies));
        emb == R.value && client.net.replies == R.rest && client.net.sent == old(client.net.sent) + R.sent
    {
      ghost var R0 := RetryRun(text, maxAttempts, client.coerce, client.net.replies);
      ghost var sent0 := client.net.sent;
      var attempt := 0;
      while attempt < maxAttempts
        invariant attempt >= 0
        invariant var R := RetryRun(text, maxAttempts - attempt, client.coerce, client.net.replies);
          R.value == R0.value && R.rest == R0.rest && client.net.sent + R.sent == sent0 + R0.sent
        decreases maxAttempts - attempt
      {
        ghost var sentBefore := client.net.sent;
        ghost var first := EmbedRun(Some(text), client.coerce, client.net.replies);
        ghost var R := RetryRun(text, maxAttempts - attempt, client.coerce, client.net.replies);
        ghost var later := RetryRun(text, maxAttempts - attempt - 1, client.coerce, first.rest);
        assert R == if Usable(first.value) then first else After(first.sent, later);
        attempt := attempt + 1;
        emb := client.Embed(Some(text));
        if emb.Some? && |emb.value| > 0 {
          return;
        }
        AppendAssoc(sentBefore, first.sent, later.sent);
      }
      return None;
    }

    /** buildPrompt(rows, question): the StringBuilder filled excerpt by excerpt. */
    method BuildPrompt(rows: seq<Row>, question: string) returns (prompt: string)
      ensures prompt == Prompt(template, rows, question)
    {
      var sb := template.preamble;
      var idx: nat := 1;
      for i := 0 to |rows|
        invariant idx == i + 1
        invariant sb == template.preamble + Excerpts(rows[..i], 1)
      {
        ExcerptsSnoc(rows[..i], rows[i], 1);
        assert rows[..i + 1] == rows[..i] + [rows[i]];
        var excerpt := "[" + DecimalString(idx) + "] " + ContentText(rows[i].content) + "\n\n";
        idx := idx + 1;
        AppendAssoc(template.preamble, Excerpts(rows[..i], 1), excerpt);
        sb := sb + excerpt;
      }
      assert rows[..|rows|] == rows;
      sb := sb + template.questionHeader;
      sb := sb + question + "\n\n";
      prompt := sb + template.closing;
    }

    /** answerQuestion(question): the validation and the query embedding. */
    method AnswerQuestion(question: Option<string>) returns (r: Result<string>)
      modifies client.net, store
      ensures var A := AnswerRun(question, client.coerce, client.genModel, client.show, store.refused, store.ranking,
                                 toText, template, old(store.State()), old(client.net.replies));
        && r == A.value && store.State() == A.db
        && client.net.replies == A.rest && client.net.sent == old(client.net.sent) + A.sent
    {
      if question.None? || IsBlank(question.value) {
        return Err(IllegalArgument(BlankQuestionMessage));
      }
      var q := question.value;
      var emb := EmbedWithRetry(q, EmbedAttempts);
      if emb.None? || |emb.value| == 0 {
        return Err(IllegalState(NoEmbeddingMessage));
      }
      ghost var sentBefore := client.net.sent;
      r := Respond(q, emb.value);
      AppendAssoc(old(client.net.sent), sentBefore[|old(client.net.sent)|..], client.net.sent[|sentBefore|..]);
    }

    /** answerQuestion from the similarity search on: the excerpts, the prompt and generate. */
    method Respond(q: string, emb: seq<Option<Double>>) returns (r: Result<string>)
      modifies client.net, store
      ensures var A := RespondRun(q, emb, client.genModel, client.show, store.refused, store.ranking,
                                  toText, template, old(store.State()), old(client.net.replies));
        && r == A.value && store.State() == A.db
        && client.net.replies == A.rest && client.net.sent == old(client.net.sent) + A.sent
    {
      var rows := SimilaritySearch(emb, TopK);
      if rows.Err? {
        return Err(rows.error);
      }
      if |rows.value| == 0 {
        return Ok(NoExcerptsReply);
      }
      var prompt := BuildPrompt(rows.value, q);
      r := client.Generate(Some(prompt));
    }
  }
}
