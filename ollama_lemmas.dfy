/**
 * What OllamaClient's runs promise: the requests it sends, in which order and how many,
 * when it gives up on an endpoint, how the polls end, and how embedding replies normalise.
 */
module OllamaLemmas {
  import opened Wrappers
  import opened JsonNode
  import opened Http
  import opened Ollama
  import Extraction

  // ---------------------------------------------------------------------------------------
  // Requests

  /** The body the client builds for an endpoint: native bodies name "mistral", the OpenAI one genModel. */
  predicate WellFormed(req: Request, prompt: string, model: Option<string>) {
    match req.endpoint
    case NativeGenerate => req.body == CompletionBody(NativeModel, prompt, MaxTokens)
    case NativeChat => req.body == CompletionBody(NativeModel, prompt, MaxTokens)
    case OpenAIChat => model.Some? && req.body == ChatBody(model.value, [Message("user", prompt)], MaxTokens)
    case EmbedEndpoint => false
  }

  /** Position of a generation endpoint in the probing order. */
  function Rank(e: Endpoint): nat {
    match e
    case NativeGenerate => 0
    case NativeChat => 1
    case OpenAIChat => 2
    case EmbedEndpoint => 3
  }

  /** The follow-up calls a stage can still make. */
  function Budget(stage: Stage): nat {
    match stage
    case Replied(_) => MaxPollAttempts
    case Classified(shape) => if shape.Streaming? then MaxPollAttempts else if shape.Short? then ShortPolls else 0
    case Polling(_, _, poll) => if poll >= MaxPollAttempts then 0 else MaxPollAttempts - poll
    case ShortPolling(_, p) => if p >= ShortPolls then 0 else ShortPolls - p
    case Candidate(_, p) => if p + 1 >= ShortPolls then 0 else ShortPolls - p - 1
  }

  /** An attempt from a stage makes at most Budget(stage) follow-up calls. */
  lemma {:induction false} StageBudget(req: Request, stage: Stage, show: Json -> string, rs: seq<Reply>)
    ensures |StageRun(req, stage, show, rs).sent| <= Budget(stage)
    decreases StageRank(stage), StageCount(stage)
  {
    match stage
    case Replied(reply) =>
      if reply.Answer? {
        StageBudget(req, Classified(Classify(reply.json, show)), show, rs);
      }
    case Classified(shape) =>
      if shape.Streaming? {
        StageBudget(req, Polling(shape.accum, shape.done, 0), show, rs);
      } else if shape.Short? {
        StageBudget(req, ShortPolling(shape.serialized, 0), show, rs);
      }
    case Polling(accum, done, poll) =>
      if !done && poll < MaxPollAttempts && Next(rs).Answer? {
        var f := Next(rs).json;
        var next := Polling(if Has(f, "response") then AsText(Get(f, "response")) else accum,
                            if Has(f, "done") then AsBoolean(Get(f, "done")) else done,
                            poll + 1);
        StageBudget(req, next, show, Rest(rs));
        assert |StageRun(req, stage, show, rs).sent| == 1 + |StageRun(req, next, show, Rest(rs)).sent|;
      }
    case ShortPolling(last, p) =>
      if p < ShortPolls && Next(rs).Answer? {
        var next := Candidate(ShortCandidate(Next(rs).json, last), p);
        StageBudget(req, next, show, Rest(rs));
        assert |StageRun(req, stage, show, rs).sent| == 1 + |StageRun(req, next, show, Rest(rs)).sent|;
      }
    case Candidate(candidate, p) =>
      if candidate.Some? && |candidate.value| <= LongEnough {
        StageBudget(req, ShortPolling(candidate.value, p + 1), show, rs);
      }
  }

  /** Every follow-up call repeats the attempt's request. */
  lemma {:induction false} StageRepeats(req: Request, stage: Stage, show: Json -> string, rs: seq<Reply>)
    ensures forall i :: 0 <= i < |StageRun(req, stage, show, rs).sent| ==> StageRun(req, stage, show, rs).sent[i] == req
    decreases StageRank(stage), StageCount(stage)
  {
    match stage
    case Replied(reply) =>
      if reply.Answer? {
        StageRepeats(req, Classified(Classify(reply.json, show)), show, rs);
      }
    case Classified(shape) =>
      if shape.Streaming? {
        StageRepeats(req, Polling(shape.accum, shape.done, 0), show, rs);
      } else if shape.Short? {
        StageRepeats(req, ShortPolling(shape.serialized, 0), show, rs);
      }
    case Polling(accum, done, poll) =>
      if !done && poll < MaxPollAttempts && Next(rs).Answer? {
        var f := Next(rs).json;
        StageRepeats(req, Polling(if Has(f, "response") then AsText(Get(f, "response")) else accum,
                          if Has(f, "done") then AsBoolean(Get(f, "done")) else done,
                          poll + 1), show, Rest(rs));
      }
    case ShortPolling(last, p) =>
      if p < ShortPolls && Next(rs).Answer? {
        StageRepeats(req, Candidate(ShortCandidate(Next(rs).json, last), p), show, Rest(rs));
      }
    case Candidate(candidate, p) =>
      if candidate.Some? && |candidate.value| <= LongEnough {
        StageRepeats(req, ShortPolling(candidate.value, p + 1), show, rs);
      }
  }

  /** Every follow-up repeats the attempt's request, and there are at most Budget(stage) of them. */
  lemma StageRequests(req: Request, stage: Stage, show: Json -> string, rs: seq<Reply>)
    ensures var R := StageRun(req, stage, show, rs);
      |R.sent| <= Budget(stage) && forall i :: 0 <= i < |R.sent| ==> R.sent[i] == req
  {
    StageBudget(req, stage, show, rs);
    StageRepeats(req, stage, show, rs);
  }

  /** One attempt sends its endpoint's request at most 1 + MaxPollAttempts times, and nothing else. */
  lemma AttemptRequests(e: Endpoint, prompt: string, model: Option<string>, show: Json -> string, rs: seq<Reply>)
    requires e != EmbedEndpoint
    ensures var A := AttemptRun(e, prompt, model, show, rs);
      && |A.sent| <= 1 + MaxPollAttempts
      && (forall i :: 0 <= i < |A.sent| ==> A.sent[i].endpoint == e && WellFormed(A.sent[i], prompt, model))
      && (BodyFor(e, model, prompt).None? <==> |A.sent| == 0)
  {
    match BodyFor(e, model, prompt)
    case None =>
    case Some(body) =>
      StageRequests(Request(e, body), Replied(Next(rs)), show, Rest(rs));
  }

  /** Whether requests go to endpoints in probing order, never back to an earlier one. */
  predicate InOrder(sent: seq<Request>) {
    forall i, j :: 0 <= i < j < |sent| ==> Rank(sent[i].endpoint) <= Rank(sent[j].endpoint)
  }

  /** Requests that are well formed, go to endpoint k or a later one, and keep probing order. */
  predicate Probed(k: nat, prompt: string, model: Option<string>, sent: seq<Request>) {
    && (forall i :: 0 <= i < |sent| ==> k <= Rank(sent[i].endpoint) < |Endpoints|)
    && (forall i :: 0 <= i < |sent| ==> WellFormed(sent[i], prompt, model))
    && InOrder(sent)
  }

  /** The requests of one attempt at endpoint k followed by those of the later endpoints. */
  lemma Concatenated(k: nat, prompt: string, model: Option<string>, A: seq<Request>, Q: seq<Request>)
    requires forall i :: 0 <= i < |A| ==> Rank(A[i].endpoint) == k && WellFormed(A[i], prompt, model)
    requires Probed(k + 1, prompt, model, Q) && k < |Endpoints|
    ensures Probed(k, prompt, model, A + Q)
  {
    forall i | 0 <= i < |A + Q|
      ensures k <= Rank((A + Q)[i].endpoint) < |Endpoints| && WellFormed((A + Q)[i], prompt, model)
    {
      if i >= |A| {
        assert (A + Q)[i] == Q[i - |A|];
      }
    }
    forall i, j | 0 <= i < j < |A + Q|
      ensures Rank((A + Q)[i].endpoint) <= Rank((A + Q)[j].endpoint)
    {
      if j >= |A| {
        assert (A + Q)[j] == Q[j - |A|];
        if i >= |A| {
          assert (A + Q)[i] == Q[i - |A|];
        }
      }
    }
  }

  /**
   * Probing from endpoint k sends at most 1 + MaxPollAttempts requests per remaining endpoint.
   */
  lemma {:induction false} ProbeCount(k: nat, prompt: string, model: Option<string>, show: Json -> string,
                                      rs: seq<Reply>)
    ensures |ProbeRun(k, prompt, model, show, rs).sent|
      <= (if k >= |Endpoints| then 0 else |Endpoints| - k) * (1 + MaxPollAttempts)
    decreases |Endpoints| - k
  {
    if k < |Endpoints| {
      var A := AttemptRun(Endpoints[k], prompt, model, show, rs);
      AttemptRequests(Endpoints[k], prompt, model, show, rs);
      if A.value.None? {
        ProbeCount(k + 1, prompt, model, show, A.rest);
        assert ProbeRun(k, prompt, model, show, rs).sent == A.sent + ProbeRun(k + 1, prompt, model, show, A.rest).sent;
      }
    }
  }

  /**
   * Probing from endpoint k sends only well-formed requests, to endpoints k and later, in
   * probing order.
   */
  lemma {:induction false} ProbeRequests(k: nat, prompt: string, model: Option<string>, show: Json -> string,
                                         rs: seq<Reply>)
    ensures Probed(k, prompt, model, ProbeRun(k, prompt, model, show, rs).sent)
    decreases |Endpoints| - k
  {
    if k < |Endpoints| {
      var e := Endpoints[k];
      assert Rank(e) == k;
      var A := AttemptRun(e, prompt, model, show, rs);
      AttemptRequests(e, prompt, model, show, rs);
      if A.value.None? {
        ProbeRequests(k + 1, prompt, model, show, A.rest);
        var Q := ProbeRun(k + 1, prompt, model, show, A.rest);
        assert ProbeRun(k, prompt, model, show, rs).sent == A.sent + Q.sent;
        Concatenated(k, prompt, model, A.sent, Q.sent);
      } else {
        assert ProbeRun(k, prompt, model, show, rs).sent == A.sent;
        assert InOrder(A.sent);
      }
    }
  }

  /** generateRaw sends at most 33 requests, well-formed and in probing order; the first goes to /api/generate. */
  lemma GenerateRequests(prompt: string, model: Option<string>, show: Json -> string, rs: seq<Reply>)
    ensures var G := GenerateRawRun(Some(prompt), model, show, rs);
      && 1 <= |G.sent| <= 33
      && G.sent[0] == Request(NativeGenerate, CompletionBody(NativeModel, prompt, MaxTokens))
      && (forall i :: 0 <= i < |G.sent| ==> WellFormed(G.sent[i], prompt, model))
      && InOrder(G.sent)
  {
    ProbeCount(0, prompt, model, show, rs);
    ProbeRequests(0, prompt, model, show, rs);
  }

  // ---------------------------------------------------------------------------------------
  // Classification

  lemma {:induction false} ClassifyFromFirst(i: nat, k: nat, resp: Json, show: Json -> string)
    requires i <= k <= 6 && Rule(k, resp, show).Some? && forall j :: i <= j < k ==> Rule(j, resp, show).None?
    ensures ClassifyFrom(i, resp, show) == Rule(k, resp, show).value
    decreases k - i
  {
    if i < k {
      ClassifyFromFirst(i + 1, k, resp, show);
    }
  }

  /**
   * A reply's shape is what the first applicable rule makes of it: rule k decides when it
   * applies and no earlier rule does. The last rule, the serialized reply, always applies.
   */
  lemma ClassifyFirstRule(k: nat, resp: Json, show: Json -> string)
    requires k <= 6 && Rule(k, resp, show).Some? && forall j :: 0 <= j < k ==> Rule(j, resp, show).None?
    ensures Classify(resp, show) == Rule(k, resp, show).value
  {
    ClassifyFromFirst(0, k, resp, show);
  }

  // ---------------------------------------------------------------------------------------
  // Outcomes of generation

  /** generate(null) gives the placeholder without a call: raw "" is one empty word. */
  lemma GenerateNullPrompt(model: Option<string>, show: Json -> string, rs: seq<Reply>)
    ensures GenerateRun(None, model, show, rs) == Run(Ok(Extraction.Placeholder), rs, [])
  {
    Extraction.EmptyIsIncomplete();
  }

  /** When /api/generate's first reply classifies to a text, that text is the raw result and no other call is made. */
  lemma FirstTextWins(prompt: string, model: Option<string>, show: Json -> string, rs: seq<Reply>, t: string)
    requires Next(rs).Answer? && Classify(Next(rs).json, show) == Text(t)
    ensures GenerateRawRun(Some(prompt), model, show, rs)
      == Run(Ok(t), Rest(rs), [Request(NativeGenerate, CompletionBody(NativeModel, prompt, MaxTokens))])
  {
    var req := Request(NativeGenerate, CompletionBody(NativeModel, prompt, MaxTokens));
    assert StageRun(req, Classified(Text(t)), show, Rest(rs)) == Run(Some(t), Rest(rs), []);
    assert StageRun(req, Replied(Next(rs)), show, Rest(rs)) == Run(Some(t), Rest(rs), []);
  }

  /** A first reply that is not a parsed body (null, 404, error) moves on to the next endpoint at once. */
  lemma UnparsedReplyMovesOn(k: nat, prompt: string, model: Option<string>, show: Json -> string, rs: seq<Reply>)
    requires k < |Endpoints| && BodyFor(Endpoints[k], model, prompt).Some? && !Next(rs).Answer?
    ensures ProbeRun(k, prompt, model, show, rs)
      == After([Request(Endpoints[k], BodyFor(Endpoints[k], model, prompt).value)],
               ProbeRun(k + 1, prompt, model, show, Rest(rs)))
  {
  }

  /** Three unparsed first replies: the exception, after exactly three requests. */
  lemma AllEndpointsFail(prompt: string, m: string, show: Json -> string, rs: seq<Reply>)
    requires |rs| >= 3 && !rs[0].Answer? && !rs[1].Answer? && !rs[2].Answer?
    ensures var native := CompletionBody(NativeModel, prompt, MaxTokens);
      ProbeRun(0, prompt, Some(m), show, rs)
        == Run(Err(IllegalState(NoEndpointMessage)), rs[3..],
               [Request(NativeGenerate, native), Request(NativeChat, native),
                Request(OpenAIChat, ChatBody(m, [Message("user", prompt)], MaxTokens))])
  {
    assert Rest(rs) == rs[1..] && Rest(rs[1..]) == rs[2..] && Rest(rs[2..]) == rs[3..];
  }

  /** With a null genModel the OpenAI body throws before any call: two requests, then the exception. */
  lemma NullModelSkipsOpenAI(prompt: string, show: Json -> string, rs: seq<Reply>)
    requires |rs| >= 2 && !rs[0].Answer? && !rs[1].Answer?
    ensures var native := CompletionBody(NativeModel, prompt, MaxTokens);
      ProbeRun(0, prompt, None, show, rs)
        == Run(Err(IllegalState(NoEndpointMessage)), rs[2..],
               [Request(NativeGenerate, native), Request(NativeChat, native)])
  {
    assert Rest(rs) == rs[1..] && Rest(rs[1..]) == rs[2..];
  }

  /** An unreachable service: every call times out, so all three endpoints are tried and the exception follows. */
  lemma UnreachableService(prompt: string, m: string, show: Json -> string)
    ensures var native := CompletionBody(NativeModel, prompt, MaxTokens);
      GenerateRun(Some(prompt), Some(m), show, [])
        == Run(Err(IllegalState(NoEndpointMessage)), [],
               [Request(NativeGenerate, native), Request(NativeChat, native),
                Request(OpenAIChat, ChatBody(m, [Message("user", prompt)], MaxTokens))])
  {
  }

  /** An attempt at endpoint k that yields text t ends probing with t: no later endpoint is called. */
  lemma AttemptTextEndsProbing(k: nat, prompt: string, model: Option<string>, show: Json -> string,
                               rs: seq<Reply>, t: string)
    requires k < |Endpoints| && AttemptRun(Endpoints[k], prompt, model, show, rs).value == Some(t)
    ensures var A := AttemptRun(Endpoints[k], prompt, model, show, rs);
      var P := ProbeRun(k, prompt, model, show, rs);
      && P == Run(Ok(t), A.rest, A.sent)
      && forall i :: 0 <= i < |P.sent| ==> P.sent[i].endpoint == Endpoints[k]
  {
    AttemptRequests(Endpoints[k], prompt, model, show, rs);
  }

  /** Whether every attempt from endpoint k on yields no text, each on the replies the earlier ones left. */
  predicate AllAttemptsFail(k: nat, prompt: string, model: Option<string>, show: Json -> string, rs: seq<Reply>)
    decreases |Endpoints| - k
  {
    k >= |Endpoints| ||
    (var A := AttemptRun(Endpoints[k], prompt, model, show, rs);
     A.value.None? && AllAttemptsFail(k + 1, prompt, model, show, A.rest))
  }

  /**
   * Probing from endpoint k fails exactly when every remaining attempt yields no text, and the
   * only failure is the IllegalStateException with the source's message.
   */
  lemma {:induction false} ProbeFailsIff(k: nat, prompt: string, model: Option<string>, show: Json -> string,
                                         rs: seq<Reply>)
    ensures var P := ProbeRun(k, prompt, model, show, rs);
      && (P.value.Err? <==> AllAttemptsFail(k, prompt, model, show, rs))
      && (P.value.Err? ==> P.value.error == IllegalState(NoEndpointMessage))
    decreases |Endpoints| - k
  {
    if k < |Endpoints| {
      var A := AttemptRun(Endpoints[k], prompt, model, show, rs);
      if A.value.None? {
        ProbeFailsIff(k + 1, prompt, model, show, A.rest);
      }
    }
  }

  // ---------------------------------------------------------------------------------------
  // The streaming poll

  /** A reply already marked done makes no follow-up call. */
  lemma DoneStopsPolling(req: Request, accum: string, poll: nat, show: Json -> string, rs: seq<Reply>)
    ensures StageRun(req, Polling(accum, true, poll), show, rs) == Run(Some(accum), rs, [])
  {
  }

  /** A null follow-up ends the poll with the text so far; an exception abandons the endpoint. */
  lemma FollowUpEndsPolling(req: Request, accum: string, poll: nat, show: Json -> string, rs: seq<Reply>)
    requires poll < MaxPollAttempts && !Next(rs).Answer?
    ensures StageRun(req, Polling(accum, false, poll), show, rs)
      == Run(if Next(rs).NoBody? then Some(accum) else None, Rest(rs), [req])
  {
  }

  /** The streaming poll makes at most MaxPollAttempts follow-ups, all repeating the first request. */
  lemma StreamingBound(req: Request, accum: string, done: bool, show: Json -> string, rs: seq<Reply>)
    ensures var R := StageRun(req, Classified(Streaming(accum, done)), show, rs);
      |R.sent| <= MaxPollAttempts && forall i :: 0 <= i < |R.sent| ==> R.sent[i] == req
  {
    StageRequests(req, Classified(Streaming(accum, done)), show, rs);
  }

  /** The streaming example: "Pa" not done, then "Paris" done, gives "Paris" after a single follow-up. */
  lemma StreamingExample(prompt: string, model: Option<string>, show: Json -> string)
    ensures var first := JObj(map["response" := JStr("Pa"), "done" := JBool(false)]);
      var follow := JObj(map["response" := JStr("Paris"), "done" := JBool(true)]);
      var req := Request(NativeGenerate, CompletionBody(NativeModel, prompt, MaxTokens));
      GenerateRawRun(Some(prompt), model, show, [Answer(first), Answer(follow)])
        == Run(Ok("Paris"), [], [req, req])
  {
    var first := JObj(map["response" := JStr("Pa"), "done" := JBool(false)]);
    var follow := JObj(map["response" := JStr("Paris"), "done" := JBool(true)]);
    assert Classify(first, show) == Streaming("Pa", false);
    assert Has(follow, "response") && Has(follow, "done");
    assert [Answer(first), Answer(follow)][1..] == [Answer(follow)];
  }

  /** Whether a follow-up reply carries a response text. */
  predicate CarriesResponse(r: Reply) {
    r.Answer? && Has(r.json, "response")
  }

  /** The response text of the last reply that carries one, or accum when none does. */
  function LastResponse(replies: seq<Reply>, accum: string): string {
    if |replies| == 0 then accum
    else if CarriesResponse(replies[|replies| - 1]) then AsText(Get(replies[|replies| - 1].json, "response"))
    else LastResponse(replies[..|replies| - 1], accum)
  }

  /** Whether every reply is a parsed body or a null body, so that none ended the attempt. */
  predicate NoFailure(replies: seq<Reply>) {
    forall i :: 0 <= i < |replies| ==> replies[i].Answer? || replies[i].NoBody?
  }

  /** No reply of [r] + rest failed exactly when r did not and no reply of rest did. */
  lemma NoFailureFront(r: Reply, rest: seq<Reply>)
    ensures NoFailure([r] + rest) <==> (r.Answer? || r.NoBody?) && NoFailure(rest)
  {
    if NoFailure([r] + rest) {
      forall i | 0 <= i < |rest|
        ensures rest[i].Answer? || rest[i].NoBody?
      {
        assert ([r] + rest)[i + 1] == rest[i];
      }
      assert ([r] + rest)[0] == r;
    }
    if (r.Answer? || r.NoBody?) && NoFailure(rest) {
      forall i | 0 <= i < |rest| + 1
        ensures ([r] + rest)[i].Answer? || ([r] + rest)[i].NoBody?
      {
        if i > 0 {
          assert ([r] + rest)[i] == rest[i - 1];
        }
      }
    }
  }

  /** The first reply's text only replaces accum as the starting point. */
  lemma {:induction false} LastResponseFront(r: Reply, rest: seq<Reply>, accum: string)
    ensures LastResponse([r] + rest, accum)
      == LastResponse(rest, if CarriesResponse(r) then AsText(Get(r.json, "response")) else accum)
    decreases |rest|
  {
    if |rest| == 0 {
      assert [r] + rest == [r] && [r][..0] == [];
    } else {
      var init := rest[..|rest| - 1];
      assert ([r] + rest)[..|rest|] == [r] + init;
      if !CarriesResponse(rest[|rest| - 1]) {
        LastResponseFront(r, init, accum);
      }
    }
  }

  /**
   * The streaming poll returns the response text of the last follow-up that carries one, or the
   * text it started from when none does, unless a follow-up failed; then it yields no text.
   */
  lemma {:induction false} StreamingResult(req: Request, accum: string, done: bool, poll: nat,
                                           show: Json -> string, rs: seq<Reply>)
    ensures var R := StageRun(req, Polling(accum, done, poll), show, rs);
      var n := |R.sent|;
      && (n <= |rs| && NoFailure(rs[..n]) ==> R.value == Some(LastResponse(rs[..n], accum)))
      && (!(n <= |rs| && NoFailure(rs[..n])) ==> R.value == None)
    decreases StageCount(Polling(accum, done, poll))
  {
    if !done && poll < MaxPollAttempts && |rs| > 0 {
      var R := StageRun(req, Polling(accum, done, poll), show, rs);
      match rs[0]
      case Answer(f) =>
        var a := if Has(f, "response") then AsText(Get(f, "response")) else accum;
        var d := if Has(f, "done") then AsBoolean(Get(f, "done")) else done;
        var X := StageRun(req, Polling(a, d, poll + 1), show, rs[1..]);
        assert Rest(rs) == rs[1..];
        assert R == After([req], X);
        StreamingResult(req, a, d, poll + 1, show, rs[1..]);
        var m := |X.sent|;
        if m <= |rs[1..]| {
          assert rs[..m + 1] == [rs[0]] + rs[1..][..m];
          LastResponseFront(rs[0], rs[1..][..m], accum);
          NoFailureFront(rs[0], rs[1..][..m]);
        }
      case NoBody =>
        assert rs[..1] == [NoBody];
        assert LastResponse(rs[..1], accum) == LastResponse([], accum);
      case NotFound =>
        assert !NoFailure(rs[..1]);
      case Failed =>
        assert !NoFailure(rs[..1]);
    }
  }

  // ---------------------------------------------------------------------------------------
  // The short-poll fallback

  /** A candidate longer than LongEnough is returned at once. */
  lemma LongCandidateReturned(req: Request, last: string, p: nat, show: Json -> string, rs: seq<Reply>, c: string)
    requires p < ShortPolls && Next(rs).Answer? && ShortCandidate(Next(rs).json, last) == Some(c) && |c| > LongEnough
    ensures StageRun(req, ShortPolling(last, p), show, rs) == Run(Some(c), Rest(rs), [req])
  {
  }

  /** An empty choices array: get(0) is null and the attempt ends in an exception. */
  lemma EmptyChoicesAbandons(req: Request, last: string, p: nat, show: Json -> string, rs: seq<Reply>)
    requires p < ShortPolls && Next(rs).Answer?
    requires var f := Next(rs).json;
      !Has(f, "response") && !HasArray(f, "output") && HasArray(f, "choices") && |ArrayAt(f, "choices")| == 0
    ensures StageRun(req, ShortPolling(last, p), show, rs) == Run(None, Rest(rs), [req])
  {
  }

  /** The short-poll fallback makes at most ShortPolls follow-ups. */
  lemma ShortPollBound(req: Request, serialized: string, show: Json -> string, rs: seq<Reply>)
    ensures |StageRun(req, Classified(Short(serialized)), show, rs).sent| <= ShortPolls
  {
    StageRequests(req, Classified(Short(serialized)), show, rs);
  }

  /** Follow-ups that never grow the candidate: the last candidate after exactly ShortPolls follow-ups. */
  lemma {:induction false} ShortPollsExhausted(req: Request, last: string, p: nat, show: Json -> string,
                                               rs: seq<Reply>)
    requires p <= ShortPolls && |last| <= LongEnough && |rs| >= ShortPolls - p
    requires forall i :: 0 <= i < ShortPolls - p ==> rs[i] == Answer(JObj(map[]))
    ensures StageRun(req, ShortPolling(last, p), show, rs)
      == Run(Some(last), rs[ShortPolls - p..], seq(ShortPolls - p, _ => req))
    decreases ShortPolls - p
  {
    if p < ShortPolls {
      assert Next(rs) == Answer(JObj(map[]));
      assert ShortCandidate(JObj(map[]), last) == Some(last);
      assert Rest(rs) == rs[1..];
      ShortPollsExhausted(req, last, p + 1, show, rs[1..]);
      assert rs[1..][ShortPolls - (p + 1)..] == rs[ShortPolls - p..];
      assert [req] + seq(ShortPolls - (p + 1), _ => req) == seq(ShortPolls - p, _ => req);
    }
  }

  /**
   * The candidate after a run of short-poll replies, taken in turn: a body updates it as
   * ShortCandidate says, a null body keeps it, and a failure leaves none.
   */
  function CandidateAfter(replies: seq<Reply>, last: string): Option<string>
    decreases |replies|
  {
    if |replies| == 0 then Some(last)
    else
      match replies[0]
      case Answer(f) =>
        (match ShortCandidate(f, last)
         case None => None
         case Some(c) => CandidateAfter(replies[1..], c))
      case NoBody => CandidateAfter(replies[1..], last)
      case _ => None
  }

  /**
   * The short-poll fallback returns the candidate left by the follow-ups it consumed; a
   * candidate of at most LongEnough units comes back early only after a null reply.
   */
  lemma {:induction false} ShortPollResult(req: Request, last: string, p: nat, show: Json -> string, rs: seq<Reply>)
    ensures var R := StageRun(req, ShortPolling(last, p), show, rs);
      var n := |R.sent|;
      && (n <= |rs| ==> R.value == CandidateAfter(rs[..n], last))
      && (n > |rs| ==> R.value == None)
      && (R.value.Some? && |R.value.value| <= LongEnough && 0 < n <= |rs| && n < ShortPolls - p ==> rs[n - 1] == NoBody)
    decreases ShortPolls - p
  {
    if p < ShortPolls && |rs| > 0 {
      var R := StageRun(req, ShortPolling(last, p), show, rs);
      assert Rest(rs) == rs[1..];
      match rs[0]
      case Answer(f) =>
        match ShortCandidate(f, last) {
        case None =>
          assert rs[..1] == [rs[0]];
        case Some(c) =>
          assert rs[..1] == [rs[0]] && [rs[0]][1..] == [];
          if |c| <= LongEnough {
            var X := StageRun(req, ShortPolling(c, p + 1), show, rs[1..]);
            assert R == After([req], X);
            ShortPollResult(req, c, p + 1, show, rs[1..]);
            var m := |X.sent|;
            if m <= |rs[1..]| {
              assert rs[..m + 1][1..] == rs[1..][..m];
            }
            if 0 < m <= |rs[1..]| {
              assert rs[m] == rs[1..][m - 1];
            }
          }
        }
      case NoBody =>
        assert rs[..1] == [NoBody] && [NoBody][1..] == [];
      case NotFound =>
        assert rs[..1] == [NotFound];
      case Failed =>
        assert rs[..1] == [Failed];
    }
  }

  // ---------------------------------------------------------------------------------------
  // Embedding

  /** The three reply shapes carrying the same vector normalise to it. */
  lemma EmbeddingShapesAgree(v: seq<Json>)
    ensures EmbeddingNode(JObj(map["embedding" := JArr(v)])) == Some(JArr(v))
    ensures EmbeddingNode(JObj(map["embeddings" := JArr([JArr(v)])])) == Some(JArr(v))
    ensures EmbeddingNode(JObj(map["data" := JArr([JObj(map["embedding" := JArr(v)])])])) == Some(JArr(v))
  {
    assert "embedding" != "embeddings" && "embedding" != "data" && "embeddings" != "data";
  }

  /** A flat embeddings array (empty, or not an array of arrays) is taken as the vector itself. */
  lemma FlatEmbeddings(v: seq<Json>)
    requires |v| == 0 || !IsArray(v[0])
    ensures EmbeddingNode(JObj(map["embeddings" := JArr(v)])) == Some(JArr(v))
  {
    assert "embedding" != "embeddings";
  }

  /** embed(null) makes no call; a failed call or a null body gives null after one request. */
  lemma EmbedFailures(t: string, coerce: string -> Conversion, rs: seq<Reply>)
    ensures EmbedRun(None, coerce, rs) == Run(None, rs, [])
    ensures !Next(rs).Answer? ==> EmbedRun(Some(t), coerce, rs) == Run(None, Rest(rs), [EmbedRequest(t)])
  {
  }

  /** An embedding array is the vector, whatever embeddings and data hold. */
  lemma EmbeddingKeyFirst(t: string, coerce: string -> Conversion, rs: seq<Reply>, v: seq<Json>)
    requires Next(rs).Answer? && Has(Next(rs).json, "embedding") && Get(Next(rs).json, "embedding") == JArr(v)
    ensures EmbedRun(Some(t), coerce, rs).value == ConvertList(v, coerce)
  {
  }

  /** Without an embedding array, an embeddings array is the vector, or its first element when that is an array. */
  lemma EmbeddingsKeySecond(t: string, coerce: string -> Conversion, rs: seq<Reply>, v: seq<Json>)
    requires Next(rs).Answer? && !HasArray(Next(rs).json, "embedding")
    requires Has(Next(rs).json, "embeddings") && Get(Next(rs).json, "embeddings") == JArr(v)
    ensures EmbedRun(Some(t), coerce, rs).value
      == if |v| > 0 && v[0].JArr? then ConvertList(v[0].items, coerce) else ConvertList(v, coerce)
  {
  }

  /**
   * data is consulted only when neither other key holds an array, and then only data[0].embedding;
   * a reply with none of the three arrays gives null.
   */
  lemma DataKeyLast(t: string, coerce: string -> Conversion, rs: seq<Reply>)
    requires Next(rs).Answer? && !HasArray(Next(rs).json, "embedding") && !HasArray(Next(rs).json, "embeddings")
    ensures var E := EmbedRun(Some(t), coerce, rs);
      var resp := Next(rs).json;
      && (!HasArray(resp, "data") ==> E.value == None)
      && (E.value.Some? ==>
            && HasArray(resp, "data") && |ArrayAt(resp, "data")| > 0
            && Has(ArrayAt(resp, "data")[0], "embedding") && Get(ArrayAt(resp, "data")[0], "embedding").JArr?
            && E.value == ConvertList(Get(ArrayAt(resp, "data")[0], "embedding").items, coerce))
  {
  }

  /** Once a vector is found, embed gives null exactly when one of its elements does not convert. */
  lemma EmbedNullIff(t: string, coerce: string -> Conversion, rs: seq<Reply>, v: seq<Json>)
    requires Next(rs).Answer? && EmbeddingNode(Next(rs).json) == Some(JArr(v))
    ensures var E := EmbedRun(Some(t), coerce, rs);
      && (E.value.None? <==> exists k :: 0 <= k < |v| && !ConvertElement(v[k], coerce).Converted?)
      && (E.value.Some? ==> |E.value.value| == |v|)
      && (E.value.Some? ==> forall k :: 0 <= k < |v| ==> E.value.value[k] == ConvertElement(v[k], coerce).element)
  {
  }
}
