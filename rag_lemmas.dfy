/** What answering a question asks of the embedding service, the database and the generator. */
module RagLemmas {
  import opened Wrappers
  import opened JavaText
  import opened JsonNode
  import opened Http
  import opened Ollama
  import opened Store
  import opened Rag
  import OllamaLemmas
  import Extraction

  /**
   * embedWithRetry(text, n) makes at most n calls, all for text, at least one when n > 0,
   * and exactly n when no call gave a non-empty list; each call takes one reply.
   */
  lemma {:induction false} RetryAttempts(text: string, n: int, coerce: string -> Conversion, rs: seq<Reply>)
    ensures var R := RetryRun(text, n, coerce, rs);
      && (n <= 0 ==> R.sent == [] && R.value.None? && R.rest == rs)
      && (n > 0 ==> 1 <= |R.sent| <= n)
      && (forall k :: 0 <= k < |R.sent| ==> R.sent[k] == EmbedRequest(text))
      && (n > 0 && !Usable(R.value) ==> |R.sent| == n)
      && |R.rest| == if |rs| <= |R.sent| then 0 else |rs| - |R.sent|
    decreases if n > 0 then n else 0
  {
    if n > 0 {
      var first := EmbedRun(Some(text), coerce, rs);
      if !Usable(first.value) {
        RetryAttempts(text, n - 1, coerce, first.rest);
        var later := RetryRun(text, n - 1, coerce, first.rest);
        assert RetryRun(text, n, coerce, rs).sent == [EmbedRequest(text)] + later.sent;
      }
    }
  }

  /** The answer of attempt i (counted from 0): embed on the replies the i earlier attempts left. */
  function AttemptValue(text: string, coerce: string -> Conversion, rs: seq<Reply>, i: nat): Option<seq<Option<Double>>> {
    EmbedRun(Some(text), coerce, if i <= |rs| then rs[i..] else []).value
  }

  /** After the first attempt, the later attempts see the script shifted by one reply. */
  lemma AttemptShift(text: string, coerce: string -> Conversion, rs: seq<Reply>, i: nat)
    ensures AttemptValue(text, coerce, Rest(rs), i) == AttemptValue(text, coerce, rs, i + 1)
  {
    if |rs| > 0 && i + 1 <= |rs| {
      assert rs[1..][i..] == rs[i + 1..];
    }
  }

  /**
   * embedWithRetry returns the first usable answer: when attempts 1 to j - 1 were unusable and
   * attempt j (at most n) is usable, the list is attempt j's, after exactly j requests.
   */
  lemma {:induction false} RetryFirstUsable(text: string, n: int, coerce: string -> Conversion, rs: seq<Reply>, j: nat)
    requires 1 <= j <= n
    requires forall i :: 0 <= i < j - 1 ==> !Usable(AttemptValue(text, coerce, rs, i))
    requires Usable(AttemptValue(text, coerce, rs, j - 1))
    ensures var R := RetryRun(text, n, coerce, rs);
      R.value == AttemptValue(text, coerce, rs, j - 1) && |R.sent| == j
    decreases j
  {
    var first := EmbedRun(Some(text), coerce, rs);
    assert first.value == AttemptValue(text, coerce, rs, 0);
    if j > 1 {
      forall i | 0 <= i < j - 2
        ensures !Usable(AttemptValue(text, coerce, first.rest, i))
      {
        AttemptShift(text, coerce, rs, i);
      }
      AttemptShift(text, coerce, rs, j - 2);
      RetryFirstUsable(text, n - 1, coerce, first.rest, j - 1);
    }
  }

  /** embedWithRetry returns null or a usable list, and null exactly when all n attempts were unusable. */
  lemma {:induction false} RetryNullIff(text: string, n: int, coerce: string -> Conversion, rs: seq<Reply>)
    ensures var R := RetryRun(text, n, coerce, rs);
      && (R.value.None? || Usable(R.value))
      && (R.value.None? <==> forall i :: 0 <= i < n ==> !Usable(AttemptValue(text, coerce, rs, i)))
    decreases if n > 0 then n else 0
  {
    if n > 0 {
      var first := EmbedRun(Some(text), coerce, rs);
      assert first.value == AttemptValue(text, coerce, rs, 0);
      if !Usable(first.value) {
        RetryNullIff(text, n - 1, coerce, first.rest);
        forall i | 0 <= i < n - 1
          ensures AttemptValue(text, coerce, first.rest, i) == AttemptValue(text, coerce, rs, i + 1)
        {
          AttemptShift(text, coerce, rs, i);
        }
        assert (forall i :: 0 <= i < n ==> !Usable(AttemptValue(text, coerce, rs, i)))
           <==> (forall i :: 0 <= i < n - 1 ==> !Usable(AttemptValue(text, coerce, first.rest, i))) by {
          if forall i :: 0 <= i < n - 1 ==> !Usable(AttemptValue(text, coerce, first.rest, i)) {
            forall i | 0 <= i < n
              ensures !Usable(AttemptValue(text, coerce, rs, i))
            {
              if i > 0 {
                assert AttemptValue(text, coerce, first.rest, i - 1) == AttemptValue(text, coerce, rs, i);
              }
            }
          }
        }
      }
    }
  }

  /** An embedding that gave nothing usable fails the question with IllegalState, whatever the script. */
  lemma NoEmbeddingFails(q: string, coerce: string -> Conversion, genModel: Option<string>, show: Json -> string,
                         refused: set<Stmt>, ranking: (map<nat, Record>, string) -> seq<Row>,
                         toText: Double -> string, t: Template, db: Db, rs: seq<Reply>)
    requires !IsBlank(q) && !Usable(RetryRun(q, EmbedAttempts, coerce, rs).value)
    ensures var E := RetryRun(q, EmbedAttempts, coerce, rs);
      AnswerRun(Some(q), coerce, genModel, show, refused, ranking, toText, t, db, rs)
        == Answered(Err(IllegalState(NoEmbeddingMessage)), db, E.rest, E.sent)
  {
  }

  /**
   * From the search on: a null element throws NullPointerException with nothing issued; otherwise
   * the LIMIT TopK query is logged, a refused query throws, no rows give the no-excerpts reply,
   * and rows give what generate makes of the prompt built from exactly those rows.
   */
  lemma RespondOutcome(q: string, emb: seq<Option<Double>>, genModel: Option<string>, show: Json -> string,
                       refused: set<Stmt>, ranking: (map<nat, Record>, string) -> seq<Row>,
                       toText: Double -> string, t: Template, db: Db, rs: seq<Reply>)
    ensures var A := RespondRun(q, emb, genModel, show, refused, ranking, toText, t, db, rs);
      var lit := VectorLiteral(Texts(emb, toText));
      var rows := Take(ranking(db.table, lit), TopK);
      var G := GenerateRun(Some(Prompt(t, rows, q)), genModel, show, rs);
      && (HasNull(emb) ==> A == Answered(Err(NullPointer), db, rs, []))
      && (!HasNull(emb) ==> A.db == db.(log := db.log + [Nearest(lit, TopK)]))
      && (!HasNull(emb) && Nearest(lit, TopK) in refused ==> A.value == Err(DataAccess) && A.sent == [] && A.rest == rs)
      && (!HasNull(emb) && Nearest(lit, TopK) !in refused && |rows| == 0 ==>
            A.value == Ok(NoExcerptsReply) && A.sent == [] && A.rest == rs)
      && (!HasNull(emb) && Nearest(lit, TopK) !in refused && |rows| > 0 ==>
            A.value == G.value && A.sent == G.sent && A.rest == G.rest)
  {
  }

  /**
   * Once the question has a usable embedding, answerQuestion's result is RespondOutcome's, after
   * the embedding requests.
   */
  lemma AnswerOutcome(q: string, coerce: string -> Conversion, genModel: Option<string>, show: Json -> string,
                      refused: set<Stmt>, ranking: (map<nat, Record>, string) -> seq<Row>,
                      toText: Double -> string, t: Template, db: Db, rs: seq<Reply>)
    requires !IsBlank(q) && Usable(RetryRun(q, EmbedAttempts, coerce, rs).value)
    ensures var E := RetryRun(q, EmbedAttempts, coerce, rs);
      var A := AnswerRun(Some(q), coerce, genModel, show, refused, ranking, toText, t, db, rs);
      var emb := E.value.value;
      var lit := VectorLiteral(Texts(emb, toText));
      var rows := Take(ranking(db.table, lit), TopK);
      var G := GenerateRun(Some(Prompt(t, rows, q)), genModel, show, E.rest);
      && (HasNull(emb) ==> A == Answered(Err(NullPointer), db, E.rest, E.sent))
      && (!HasNull(emb) ==> A.db == db.(log := db.log + [Nearest(lit, TopK)]))
      && (!HasNull(emb) && Nearest(lit, TopK) in refused ==> A.value == Err(DataAccess) && A.sent == E.sent)
      && (!HasNull(emb) && Nearest(lit, TopK) !in refused && |rows| == 0 ==>
            A.value == Ok(NoExcerptsReply) && A.sent == E.sent && A.rest == E.rest)
      && (!HasNull(emb) && Nearest(lit, TopK) !in refused && |rows| > 0 ==>
            A.value == G.value && A.sent == E.sent + G.sent && A.rest == G.rest)
  {
    var E := RetryRun(q, EmbedAttempts, coerce, rs);
    RespondOutcome(q, E.value.value, genModel, show, refused, ranking, toText, t, db, E.rest);
  }

  /** With the service unreachable, both attempts are made and the question fails. */
  lemma UnreachableEmbedding(q: string, coerce: string -> Conversion, genModel: Option<string>, show: Json -> string,
                             refused: set<Stmt>, ranking: (map<nat, Record>, string) -> seq<Row>,
                             toText: Double -> string, t: Template, db: Db)
    requires !IsBlank(q)
    ensures AnswerRun(Some(q), coerce, genModel, show, refused, ranking, toText, t, db, [])
         == Answered(Err(IllegalState(NoEmbeddingMessage)), db, [], [EmbedRequest(q), EmbedRequest(q)])
  {
    assert RetryRun(q, 1, coerce, []) == Run(None, [], [EmbedRequest(q)]);
  }

  /** A null or blank question is refused before any call. */
  lemma BlankQuestionRefused(question: Option<string>, coerce: string -> Conversion, genModel: Option<string>,
                             show: Json -> string, refused: set<Stmt>, ranking: (map<nat, Record>, string) -> seq<Row>,
                             toText: Double -> string, t: Template, db: Db, rs: seq<Reply>)
    ensures var A := AnswerRun(question, coerce, genModel, show, refused, ranking, toText, t, db, rs);
      A == Answered(Err(IllegalArgument(BlankQuestionMessage)), db, rs, []) <==> (question.None? || IsBlank(question.value))
  {
  }

  /** similaritySearch with a null element throws before any statement is issued. */
  lemma SearchNullElement(db: Db, refused: set<Stmt>, ranking: (map<nat, Record>, string) -> seq<Row>,
                          toText: Double -> string, q: seq<Option<Double>>, k: nat, i: nat)
    requires i < |q| && q[i].None?
    ensures SearchDb(db, refused, ranking, toText, q, k) == (Err(NullPointer), db)
  {
  }

  /**
   * similaritySearch without a null element issues exactly one nearest-neighbour query with
   * the vector literal and gets back at most k rows, the first of pgvector's ranking.
   */
  lemma SearchStatement(db: Db, refused: set<Stmt>, ranking: (map<nat, Record>, string) -> seq<Row>,
                        toText: Double -> string, q: seq<Option<Double>>, k: nat)
    requires !HasNull(q)
    ensures var (r, db') := SearchDb(db, refused, ranking, toText, q, k);
      var lit := VectorLiteral(Texts(q, toText));
      && db' == db.(log := db.log + [Nearest(lit, k)])
      && (r.Err? <==> Nearest(lit, k) in refused)
      && (r.Ok? ==> |r.value| <= k && r.value == ranking(db.table, lit)[..|r.value|])
  {
  }

  /**
   * generate is called only when the search found rows, and then its first request is the
   * /api/generate completion of the prompt built from exactly those rows; otherwise only the
   * embedding requests are sent.
   */
  lemma GenerationNeedsExcerpts(q: string, coerce: string -> Conversion, genModel: Option<string>, show: Json -> string,
                                refused: set<Stmt>, ranking: (map<nat, Record>, string) -> seq<Row>,
                                toText: Double -> string, t: Template, db: Db, rs: seq<Reply>)
    requires !IsBlank(q)
    ensures var A := AnswerRun(Some(q), coerce, genModel, show, refused, ranking, toText, t, db, rs);
      var E := RetryRun(q, EmbedAttempts, coerce, rs);
      && A.sent[..|E.sent|] == E.sent
      && (Usable(E.value) && SearchDb(db, refused, ranking, toText, E.value.value, TopK).0.Ok?
            && |SearchDb(db, refused, ranking, toText, E.value.value, TopK).0.value| > 0 ==>
            |A.sent| > |E.sent|
            && A.sent[|E.sent|] == Request(NativeGenerate, CompletionBody(NativeModel,
                 Prompt(t, SearchDb(db, refused, ranking, toText, E.value.value, TopK).0.value, q), MaxTokens)))
      && (!(Usable(E.value) && SearchDb(db, refused, ranking, toText, E.value.value, TopK).0.Ok?
            && |SearchDb(db, refused, ranking, toText, E.value.value, TopK).0.value| > 0) ==>
            A.sent == E.sent)
  {
    var E := RetryRun(q, EmbedAttempts, coerce, rs);
    if Usable(E.value) {
      var rows := SearchDb(db, refused, ranking, toText, E.value.value, TopK).0;
      if rows.Ok? && |rows.value| > 0 {
        OllamaLemmas.GenerateRequests(Prompt(t, rows.value, q), genModel, show, E.rest);
      }
    }
  }

  /** Every text answerQuestion returns is the no-excerpts reply or an extracted, trimmed answer. */
  lemma AnswersAreTrimmed(question: Option<string>, coerce: string -> Conversion, genModel: Option<string>,
                          show: Json -> string, refused: set<Stmt>, ranking: (map<nat, Record>, string) -> seq<Row>,
                          toText: Double -> string, t: Template, db: Db, rs: seq<Reply>)
    ensures var A := AnswerRun(question, coerce, genModel, show, refused, ranking, toText, t, db, rs);
      A.value.Ok? ==> A.value.value == NoExcerptsReply || Trim(A.value.value) == A.value.value
  {
    if question.Some? && !IsBlank(question.value) {
      var q := question.value;
      var E := RetryRun(q, EmbedAttempts, coerce, rs);
      if Usable(E.value) {
        var rows := SearchDb(db, refused, ranking, toText, E.value.value, TopK).0;
        if rows.Ok? && |rows.value| > 0 {
          var raw := GenerateRawRun(Some(Prompt(t, rows.value, q)), genModel, show, E.rest);
          if raw.value.Ok? {
            Extraction.AnswerIsTrimmed(raw.value.value);
          }
        }
      }
    }
  }

  /** Excerpt k of rows, numbered n + k, sits between the excerpts before and after it. */
  lemma {:induction false} ExcerptNumbering(rows: seq<Row>, n: nat, k: nat)
    requires k < |rows|
    ensures Excerpts(rows, n) == Excerpts(rows[..k], n) + Excerpt(n + k, rows[k]) + Excerpts(rows[k + 1..], n + k + 1)
  {
    if k > 0 {
      var tail := rows[1..];
      ExcerptNumbering(tail, n + 1, k - 1);
      assert tail[..k - 1] == rows[1..k];
      assert tail[k - 1] == rows[k];
      assert tail[k..] == rows[k + 1..];
      assert rows[..k][1..] == rows[1..k];
      var a, b := Excerpt(n, rows[0]), Excerpts(rows[1..k], n + 1);
      var x, y := Excerpt(n + k, rows[k]), Excerpts(rows[k + 1..], n + k + 1);
      assert Excerpts(tail, n + 1) == b + x + y;
      assert Excerpts(rows, n) == a + Excerpts(tail, n + 1);
      assert Excerpts(rows[..k], n) == a + b;
      AppendAssoc(a, b + x, y);
      AppendAssoc(a, b, x);
    }
  }

  /** An excerpt shows its number in brackets, then the row's content, or "null" for a null content. */
  lemma ExcerptShape(n: nat, row: Row)
    ensures var e := Excerpt(n, row);
      var d := DecimalString(n);
      && e[0] == '['
      && e[1..1 + |d|] == d
      && e[1 + |d|..3 + |d|] == "] "
      && e[3 + |d|..|e| - 2] == ContentText(row.content)
      && e[|e| - 2..] == "\n\n"
      && (row.content.None? ==> ContentText(row.content) == "null")
  {
  }

  lemma Halves(a: string, b: string)
    ensures |a + b| == |a| + |b| && (a + b)[..|a|] == a && (a + b)[|a|..] == b
  {
  }

  /** The layout puts each part at its offset. */
  lemma AssembleShape(preamble: string, excerpts: string, header: string, question: string, closing: string)
    ensures var p := Assemble(preamble, excerpts, header, question, closing);
      var at := |preamble| + |excerpts| + |header|;
      && |p| == at + |question| + 2 + |closing|
      && p[..|preamble|] == preamble
      && p[|preamble|..|preamble| + |excerpts|] == excerpts
      && p[at - |header|..at] == header
      && p[at..at + |question|] == question
      && p[|p| - |closing|..] == closing
  {
    var s1 := preamble + excerpts;
    var s2 := s1 + header;
    var s3 := s2 + question;
    var s4 := s3 + "\n\n";
    var p := s4 + closing;
    Halves(preamble, excerpts);
    Halves(s1, header);
    Halves(s2, question);
    Halves(s3, "\n\n");
    Halves(s4, closing);
    assert p[..|s3|] == s3;
    assert p[..|s2|] == s2;
    assert p[..|s1|] == s1;
  }

  /** buildPrompt's preamble opens with the system tag, and its closing text ends with the cue. */
  lemma FixedText()
    ensures |Standard.preamble| >= |SystemTag| && Standard.preamble[..|SystemTag|] == SystemTag
    ensures |Standard.closing| >= |Cue| && Standard.closing[|Standard.closing| - |Cue|..] == Cue
  {
    var line := "You are an assistant that answers user questions using ONLY the provided document excerpts. ";
    var s1 := SystemTag + line;
    var s2 := s1 + "If the answer is not found in those excerpts, reply exactly: \"I don't know\".\n\n";
    Halves(SystemTag, line);
    Halves(s1, s2[|s1|..]);
    Halves(s2, Preamble[|s2|..]);
    Halves(Instructions, Cue);
  }

  /**
   * The prompt holds the preamble, then the excerpts, then the question right after its
   * header, and ends with the closing text.
   */
  lemma PromptShape(t: Template, rows: seq<Row>, question: string)
    ensures var p := Prompt(t, rows, question);
      var ex := Excerpts(rows, 1);
      var at := |t.preamble| + |ex| + |t.questionHeader|;
      && |p| == at + |question| + 2 + |t.closing|
      && p[..|t.preamble|] == t.preamble
      && p[|t.preamble|..|t.preamble| + |ex|] == ex
      && p[at - |t.questionHeader|..at] == t.questionHeader
      && p[at..at + |question|] == question
      && p[|p| - |t.closing|..] == t.closing
  {
    AssembleShape(t.preamble, Excerpts(rows, 1), t.questionHeader, question, t.closing);
  }

  /** A prompt opens with the system tag and ends with the cue when its template does. */
  lemma PromptOpensAndCloses(t: Template, rows: seq<Row>, question: string)
    requires |t.preamble| >= |SystemTag| && t.preamble[..|SystemTag|] == SystemTag
    requires |t.closing| >= |Cue| && t.closing[|t.closing| - |Cue|..] == Cue
    ensures var p := Prompt(t, rows, question);
      && |p| >= |SystemTag| + |Cue|
      && p[..|SystemTag|] == SystemTag
      && p[|p| - |Cue|..] == Cue
  {
    var p := Prompt(t, rows, question);
    PromptShape(t, rows, question);
    assert p[..|SystemTag|] == p[..|t.preamble|][..|SystemTag|];
    assert p[|p| - |Cue|..] == p[|p| - |t.closing|..][|t.closing| - |Cue|..];
  }
}
