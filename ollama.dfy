/**
 * OllamaClient: generation through three candidate endpoints with response-shape
 * classification and polling, and embedding with shape normalisation.
 * Every method is proved equal to a Run function over the reply script; the lemmas
 * state what those functions promise.
 */
module Ollama {
  import opened Wrappers
  import opened JavaText
  import opened JsonNode
  import opened Http
  import Extraction

  const MaxPollAttempts: nat := 10
  const ShortPolls: nat := 5
  /** A serialized reply shorter than this triggers the short-poll fallback. */
  const ShortReply: nat := 30
  /** A short-poll candidate longer than this is returned at once. */
  const LongEnough: nat := 20
  const NativeModel: string := "mistral"
  const EmbedModel: string := "mxbai-embed-large"
  const MaxTokens: int := 1024
  const NoEndpointMessage: string := "No working Ollama endpoint found or generation failed"

  /** The generation endpoints, in the order they are probed. */
  const Endpoints: seq<Endpoint> := [NativeGenerate, NativeChat, OpenAIChat]

  /** makeOpenAIBody: a single user message; Map.of throws on the null model. */
  function MakeOpenAIBody(model: Option<string>, prompt: string): Option<Body> {
    match model
    case Some(m) => Some(ChatBody(m, [Message("user", prompt)], MaxTokens))
    case None => None
  }

  /** The body each endpoint receives; None when building it throws. */
  function BodyFor(e: Endpoint, model: Option<string>, prompt: string): Option<Body> {
    if e == OpenAIChat then MakeOpenAIBody(model, prompt)
    else Some(CompletionBody(NativeModel, prompt, MaxTokens))
  }

  // ---------------------------------------------------------------------------------------
  // Response shapes

  /** What the first rule that applies makes of a reply. */
  datatype Shape = Streaming(accum: string, done: bool) | Text(text: string) | Short(serialized: string)

  /** The output rule's StringBuilder: every element's text, in order. */
  function OutputText(items: seq<Json>): string {
    if |items| == 0 then "" else OutputText(items[..|items| - 1]) + AsText(items[|items| - 1])
  }

  /** One message's contribution: its text field, then its content field. */
  function MessageText(m: Json): string {
    (if Has(m, "text") then AsText(Get(m, "text")) else "")
    + (if Has(m, "content") then AsText(Get(m, "content")) else "")
  }

  /** The messages rule's StringBuilder. */
  function MessagesText(items: seq<Json>): string {
    if |items| == 0 then "" else MessagesText(items[..|items| - 1]) + MessageText(items[|items| - 1])
  }

  /** A choice's message.content, else its text, else nothing. */
  function ChoiceText(first: Json): Option<string> {
    if Has(first, "message") && Has(Get(first, "message"), "content") then
      Some(AsText(Get(Get(first, "message"), "content")))
    else if Has(first, "text") then Some(AsText(Get(first, "text")))
    else None
  }

  /** Rule 1: a streaming reply carries both response and done. */
  function StreamingRule(resp: Json): Option<Shape> {
    if Has(resp, "response") && Has(resp, "done") then
      Some(Streaming(AsText(Get(resp, "response")), AsBoolean(Get(resp, "done"))))
    else None
  }

  /** Rule 2: an output array whose concatenated text is not blank. */
  function OutputRule(resp: Json): Option<Shape> {
    if HasArray(resp, "output") && !IsBlank(OutputText(ArrayAt(resp, "output"))) then
      Some(Text(OutputText(ArrayAt(resp, "output"))))
    else None
  }

  /** Rule 3: the first choice's message.content, else its text. */
  function ChoicesRule(resp: Json): Option<Shape> {
    if HasArray(resp, "choices") && |ArrayAt(resp, "choices")| > 0
       && ChoiceText(ArrayAt(resp, "choices")[0]).Some? then
      Some(Text(ChoiceText(ArrayAt(resp, "choices")[0]).value))
    else None
  }

  /** Rule 4: the first result's content. */
  function ResultsRule(resp: Json): Option<Shape> {
    if HasArray(resp, "results") && |ArrayAt(resp, "results")| > 0
       && Has(ArrayAt(resp, "results")[0], "content") then
      Some(Text(AsText(Get(ArrayAt(resp, "results")[0], "content"))))
    else None
  }

  /** Rule 5: a messages array whose concatenation is not empty. */
  function MessagesRule(resp: Json): Option<Shape> {
    if HasArray(resp, "messages") && |MessagesText(ArrayAt(resp, "messages"))| > 0 then
      Some(Text(MessagesText(ArrayAt(resp, "messages"))))
    else None
  }

  /** Rule 6: a serialized reply under ShortReply units goes to the short-poll fallback. */
  function ShortRule(resp: Json, show: Json -> string): Option<Shape> {
    if |show(resp)| < ShortReply then Some(Short(show(resp))) else None
  }

  /** The classification rules, in priority order. */
  function Rule(k: nat, resp: Json, show: Json -> string): Option<Shape> {
    match k
    case 0 => StreamingRule(resp)
    case 1 => OutputRule(resp)
    case 2 => ChoicesRule(resp)
    case 3 => ResultsRule(resp)
    case 4 => MessagesRule(resp)
    case 5 => ShortRule(resp, show)
    case _ => Some(Text(show(resp)))
  }

  /** The first rule from k on that applies; the last one, the serialized reply, always does. */
  function ClassifyFrom(k: nat, resp: Json, show: Json -> string): Shape
    decreases 6 - k
  {
    if k >= 6 then Text(show(resp))
    else
      match Rule(k, resp, show)
      case Some(shape) => shape
      case None => ClassifyFrom(k + 1, resp, show)
  }

  /** The shape of a first reply. */
  function Classify(resp: Json, show: Json -> string): Shape {
    ClassifyFrom(0, resp, show)
  }

  /**
   * How a short-poll reply updates the candidate: its response, its output text, or its first
   * choice; None when the choices array is empty, since get(0) is then null and the next
   * call on it throws.
   */
  function ShortCandidate(f: Json, last: string): Option<string> {
    if Has(f, "response") then Some(AsText(Get(f, "response")))
    else if HasArray(f, "output") then Some(OutputText(ArrayAt(f, "output")))
    else if HasArray(f, "choices") then
      if |ArrayAt(f, "choices")| == 0 then None
      else
        match ChoiceText(ArrayAt(f, "choices")[0])
        case Some(t) => Some(t)
        case None => Some(last)
    else Some(last)
  }

  // ---------------------------------------------------------------------------------------
  // The runs: None in a value means an exception ended the endpoint's attempt

  /** Where one endpoint's attempt stands after its first POST. */
  datatype Stage =
    | Replied(reply: Reply)
    | Classified(shape: Shape)
    | Polling(accum: string, done: bool, poll: nat)
    | ShortPolling(last: string, p: nat)
    | Candidate(candidate: Option<string>, p: nat)

  function StageRank(stage: Stage): nat {
    match stage
    case Replied(_) => 2
    case Classified(_) => 1
    case _ => 0
  }

  /** Follow-up calls a polling stage may still make, counted in steps. */
  function StageCount(stage: Stage): nat {
    match stage
    case Polling(_, _, poll) => if poll >= MaxPollAttempts then 0 else MaxPollAttempts - poll
    case ShortPolling(_, p) => if p >= ShortPolls then 0 else 2 * (ShortPolls - p) + 1
    case Candidate(_, p) => if p >= ShortPolls then 1 else 2 * (ShortPolls - p)
    case _ => 0
  }

  /**
   * The rest of an attempt from a stage. A parsed first reply is classified; anything else
   * moves on to the next endpoint. The streaming poll follows up while not done, at most
   * MaxPollAttempts times; the short-poll fallback follows up at most ShortPolls times and
   * stops at a candidate longer than LongEnough.
   */
  function StageRun(req: Request, stage: Stage, show: Json -> string, rs: seq<Reply>): Run<Option<string>>
    decreases StageRank(stage), StageCount(stage)
  {
    match stage
    case Replied(reply) =>
      (match reply
       case Answer(resp) => StageRun(req, Classified(Classify(resp, show)), show, rs)
       case _ => Run(None, rs, []))
    case Classified(shape) =>
      (match shape
       case Streaming(a, d) => StageRun(req, Polling(a, d, 0), show, rs)
       case Text(t) => Run(Some(t), rs, [])
       case Short(s) => StageRun(req, ShortPolling(s, 0), show, rs))
    case Polling(accum, done, poll) =>
      if done || poll >= MaxPollAttempts then Run(Some(accum), rs, [])
      else
        After([req],
          match Next(rs)
          case Answer(f) =>
            StageRun(req, Polling(if Has(f, "response") then AsText(Get(f, "response")) else accum,
                                  if Has(f, "done") then AsBoolean(Get(f, "done")) else done,
                                  poll + 1), show, Rest(rs))
          case NoBody => Run(Some(accum), Rest(rs), [])
          case _ => Run(None, Rest(rs), []))
    case ShortPolling(last, p) =>
      if p >= ShortPolls then Run(Some(last), rs, [])
      else
        After([req],
          match Next(rs)
          case Answer(f) => StageRun(req, Candidate(ShortCandidate(f, last), p), show, Rest(rs))
          case NoBody => Run(Some(last), Rest(rs), [])
          case _ => Run(None, Rest(rs), []))
    case Candidate(candidate, p) =>
      (match candidate
       case None => Run(None, rs, [])
       case Some(c) =>
         if |c| > LongEnough then Run(Some(c), rs, [])
         else StageRun(req, ShortPolling(c, p + 1), show, rs))
  }

  /** One endpoint's attempt: Some(text) ends generation, None moves on to the next endpoint. */
  function AttemptRun(e: Endpoint, prompt: string, model: Option<string>, show: Json -> string,
                      rs: seq<Reply>): Run<Option<string>>
  {
    match BodyFor(e, model, prompt)
    case None => Run(None, rs, [])
    case Some(body) =>
      var req := Request(e, body);
      After([req], StageRun(req, Replied(Next(rs)), show, Rest(rs)))
  }

  /** Probing from endpoint k on. */
  function ProbeRun(k: nat, prompt: string, model: Option<string>, show: Json -> string,
                    rs: seq<Reply>): Run<Result<string>>
    decreases |Endpoints| - k
  {
    if k >= |Endpoints| then Run(Err(IllegalState(NoEndpointMessage)), rs, [])
    else
      var a := AttemptRun(Endpoints[k], prompt, model, show, rs);
      match a.value
      case Some(t) => Run(Ok(t), a.rest, a.sent)
      case None => After(a.sent, ProbeRun(k + 1, prompt, model, show, a.rest))
  }

  /** generateRaw. */
  function GenerateRawRun(prompt: Option<string>, model: Option<string>, show: Json -> string,
                          rs: seq<Reply>): Run<Result<string>>
  {
    match prompt
    case None => Run(Ok(""), rs, [])
    case Some(p) => ProbeRun(0, p, model, show, rs)
  }

  /** generate: the raw text through extractFinalAnswer. */
  function GenerateRun(prompt: Option<string>, model: Option<string>, show: Json -> string,
                       rs: seq<Reply>): Run<Result<string>>
  {
    var raw := GenerateRawRun(prompt, model, show, rs);
    match raw.value
    case Ok(t) => Run(Ok(Extraction.ExtractFinalAnswer(Some(t))), raw.rest, raw.sent)
    case Err(e) => Run(Err(e), raw.rest, raw.sent)
  }

  // ---------------------------------------------------------------------------------------
  // Embedding shapes

  /** The vector node: embedding, else embeddings (its first element if that is an array), else data[0].embedding. */
  function EmbeddingNode(resp: Json): Option<Json> {
    if HasArray(resp, "embedding") then Some(Get(resp, "embedding"))
    else if HasArray(resp, "embeddings") then
      var arr := ArrayAt(resp, "embeddings");
      if |arr| > 0 && IsArray(arr[0]) then Some(arr[0]) else Some(Get(resp, "embeddings"))
    else if HasArray(resp, "data") then
      match Element(Get(resp, "data"), 0)
      case Some(d0) => if Has(d0, "embedding") then Some(Get(d0, "embedding")) else None
      case None => None
    else None
  }

  /** The embedding a parsed reply yields: null when no array is found or conversion fails. */
  function EmbeddingOf(resp: Json, coerce: string -> Conversion): Option<seq<Option<Double>>> {
    match EmbeddingNode(resp)
    case Some(node) => if IsArray(node) then ConvertList(node.items, coerce) else None
    case None => None
  }

  function EmbedRequest(text: string): Request {
    Request(EmbedEndpoint, EmbedBody(EmbedModel, text))
  }

  /** embed: null text makes no call; a failed call or a null body gives null. */
  function EmbedRun(text: Option<string>, coerce: string -> Conversion, rs: seq<Reply>): Run<Option<seq<Option<Double>>>> {
    match text
    case None => Run(None, rs, [])
    case Some(t) =>
      var value := match Next(rs)
        case Answer(resp) => EmbeddingOf(resp, coerce)
        case _ => None;
      Run(value, Rest(rs), [EmbedRequest(t)])
  }

  /** emb != null && !emb.isEmpty(): what both services accept as an embedding. */
  predicate Usable(emb: Option<seq<Option<Double>>>) {
    emb.Some? && |emb.value| > 0
  }

  // ---------------------------------------------------------------------------------------
  // The client

  class OllamaClient {
    const net: Network
    /** The configured generation model, used only by the OpenAI-compatible body. */
    const genModel: Option<string>
    /** JsonNode.toString(). */
    const show: Json -> string
    /** Jackson's coercion of a string element to a Double. */
    const coerce: string -> Conversion

    constructor (net: Network, genModel: Option<string>, show: Json -> string, coerce: string -> Conversion)
      ensures this.net == net && this.genModel == genModel && this.show == show && this.coerce == coerce
    {
      this.net := net;
      this.genModel := genModel;
      this.show := show;
      this.coerce := coerce;
    }

    /** generate(prompt). */
    method Generate(prompt: Option<string>) returns (r: Result<string>)
      modifies net
      ensures var R := GenerateRun(prompt, genModel, show, old(net.replies));
        r == R.value && net.replies == R.rest && net.sent == old(net.sent) + R.sent
    {
      var raw := GenerateRaw(prompt);
      match raw
      case Ok(t) => r := Ok(Extraction.ExtractFinalAnswer(Some(t)));
      case Err(e) => r := Err(e);
    }

    /** generateRaw(prompt): the endpoint loop. */
    method GenerateRaw(prompt: Option<string>) returns (r: Result<string>)
      modifies net
      ensures var R := GenerateRawRun(prompt, genModel, show, old(net.replies));
        r == R.value && net.replies == R.rest && net.sent == old(net.sent) + R.sent
    {
      if prompt.None? {
        return Ok("");
      }
      var p := prompt.value;
      ghost var R0 := ProbeRun(0, p, genModel, show, net.replies);
      ghost var sent0 := net.sent;
      for k := 0 to |Endpoints|
        invariant var Rk := ProbeRun(k, p, genModel, show, net.replies);
          Rk.value == R0.value && Rk.rest == R0.rest && net.sent + Rk.sent == sent0 + R0.sent
      {
        ghost var sentBefore := net.sent;
        ghost var A := AttemptRun(Endpoints[k], p, genModel, show, net.replies);
        var text := Attempt(Endpoints[k], p);
        if text.Some? {
          return Ok(text.value);
        }
        AppendAssoc(sentBefore, A.sent, ProbeRun(k + 1, p, genModel, show, net.replies).sent);
      }
      r := Err(IllegalState(NoEndpointMessage));
    }

    /** The body of the endpoint loop for one endpoint. */
    method Attempt(e: Endpoint, prompt: string) returns (text: Option<string>)
      modifies net
      ensures var R := AttemptRun(e, prompt, genModel, show, old(net.replies));
        text == R.value && net.replies == R.rest && net.sent == old(net.sent) + R.sent
    {
      var body := BodyFor(e, genModel, prompt);
      if body.None? {
        return None;
      }
      text := Exchange(Request(e, body.value));
    }

    /** The first POST to an endpoint and what its reply leads to. */
    method Exchange(req: Request) returns (text: Option<string>)
      modifies net
      ensures var R := After([req], StageRun(req, Replied(Next(old(net.replies))), show, Rest(old(net.replies))));
        text == R.value && net.replies == R.rest && net.sent == old(net.sent) + R.sent
    {
      var reply := net.Post(req);
      if !reply.Answer? {
        return None;
      }
      text := FollowReply(req, reply.json);
    }

    /** The rest of an attempt, once the first reply has been parsed. */
    method FollowReply(req: Request, resp: Json) returns (text: Option<string>)
      modifies net
      ensures var R := StageRun(req, Replied(Answer(resp)), show, old(net.replies));
        text == R.value && net.replies == R.rest && net.sent == old(net.sent) + R.sent
    {
      var shape := ClassifyReply(resp);
      match shape
      case Streaming(a, d) => text := StreamPoll(req, a, d);
      case Text(t) => text := Some(t);
      case Short(s) => text := ShortPoll(req, s);
    }

    /** The classification chain, with its StringBuilder loops. */
    method ClassifyReply(resp: Json) returns (shape: Shape)
      ensures shape == Classify(resp, show)
    {
      if Has(resp, "response") && Has(resp, "done") {
        return Streaming(AsText(Get(resp, "response")), AsBoolean(Get(resp, "done")));
      }
      assert Classify(resp, show) == ClassifyFrom(1, resp, show);
      if HasArray(resp, "output") {
        var out := ConcatOutput(ArrayAt(resp, "output"));
        if !IsBlank(out) {
          return Text(out);
        }
      }
      assert Classify(resp, show) == ClassifyFrom(2, resp, show);
      if HasArray(resp, "choices") && |ArrayAt(resp, "choices")| > 0 {
        var first := ArrayAt(resp, "choices")[0];
        if Has(first, "message") && Has(Get(first, "message"), "content") {
          return Text(AsText(Get(Get(first, "message"), "content")));
        }
        if Has(first, "text") {
          return Text(AsText(Get(first, "text")));
        }
      }
      assert Classify(resp, show) == ClassifyFrom(3, resp, show);
      if HasArray(resp, "results") && |ArrayAt(resp, "results")| > 0 {
        var r0 := ArrayAt(resp, "results")[0];
        if Has(r0, "content") {
          return Text(AsText(Get(r0, "content")));
        }
      }
      assert Classify(resp, show) == ClassifyFrom(4, resp, show);
      if HasArray(resp, "messages") {
        var sb := ConcatMessages(ArrayAt(resp, "messages"));
        if |sb| > 0 {
          return Text(sb);
        }
      }
      assert Classify(resp, show) == ClassifyFrom(5, resp, show);
      var asText := show(resp);
      if |asText| < ShortReply {
        return Short(asText);
      }
      assert Classify(resp, show) == ClassifyFrom(6, resp, show);
      return Text(asText);
    }

    /** The streaming poll: follow-ups while not done, at most MaxPollAttempts of them. */
    method StreamPoll(req: Request, accum0: string, done0: bool) returns (text: Option<string>)
      modifies net
      ensures var R := StageRun(req, Polling(accum0, done0, 0), show, old(net.replies));
        text == R.value && net.replies == R.rest && net.sent == old(net.sent) + R.sent
    {
      ghost var R0 := StageRun(req, Polling(accum0, done0, 0), show, net.replies);
      ghost var sent0 := net.sent;
      var accum, done, poll := accum0, done0, 0;
      while !done && poll < MaxPollAttempts
        invariant poll <= MaxPollAttempts
        invariant var Rk := StageRun(req, Polling(accum, done, poll), show, net.replies);
          Rk.value == R0.value && Rk.rest == R0.rest && net.sent + Rk.sent == sent0 + R0.sent
        decreases MaxPollAttempts - poll
      {
        ghost var sentBefore := net.sent;
        poll := poll + 1;
        var follow := net.Post(req);
        if follow.NoBody? {
          break;
        }
        if !follow.Answer? {
          return None;
        }
        if Has(follow.json, "response") {
          accum := AsText(Get(follow.json, "response"));
        }
        if Has(follow.json, "done") {
          done := AsBoolean(Get(follow.json, "done"));
        }
        AppendAssoc(sentBefore, [req], StageRun(req, Polling(accum, done, poll), show, net.replies).sent);
      }
      text := Some(accum);
    }

    /** The short-poll fallback: at most ShortPolls follow-ups, stopping at a long enough candidate. */
    method ShortPoll(req: Request, serialized: string) returns (text: Option<string>)
      modifies net
      ensures var R := StageRun(req, ShortPolling(serialized, 0), show, old(net.replies));
        text == R.value && net.replies == R.rest && net.sent == old(net.sent) + R.sent
    {
      ghost var R0 := StageRun(req, ShortPolling(serialized, 0), show, net.replies);
      ghost var sent0 := net.sent;
      var last := serialized;
      for p := 0 to ShortPolls
        invariant var Rk := StageRun(req, ShortPolling(last, p), show, net.replies);
          Rk.value == R0.value && Rk.rest == R0.rest && net.sent + Rk.sent == sent0 + R0.sent
      {
        ghost var sentBefore := net.sent;
        var follow := net.Post(req);
        if follow.NoBody? {
          break;
        }
        if !follow.Answer? {
          return None;
        }
        var candidate := ShortUpdate(follow.json, last);
        if candidate.None? {
          return None;
        }
        last := candidate.value;
        if |last| > LongEnough {
          return Some(last);
        }
        AppendAssoc(sentBefore, [req], StageRun(req, ShortPolling(last, p + 1), show, net.replies).sent);
      }
      text := Some(last);
    }

    /** How one short-poll reply updates the candidate. */
    method ShortUpdate(f: Json, last: string) returns (candidate: Option<string>)
      ensures candidate == ShortCandidate(f, last)
    {
      if Has(f, "response") {
        return Some(AsText(Get(f, "response")));
      } else if HasArray(f, "output") {
        var out := ConcatOutput(ArrayAt(f, "output"));
        return Some(out);
      } else if HasArray(f, "choices") {
        if |ArrayAt(f, "choices")| == 0 {
          return None;
        }
        var first := ArrayAt(f, "choices")[0];
        if Has(first, "message") && Has(Get(first, "message"), "content") {
          return Some(AsText(Get(Get(first, "message"), "content")));
        } else if Has(first, "text") {
          return Some(AsText(Get(first, "text")));
        }
      }
      return Some(last);
    }

    /** The output rule's loop. */
    method ConcatOutput(items: seq<Json>) returns (s: string)
      ensures s == OutputText(items)
    {
      s := "";
      for i := 0 to |items|
        invariant s == OutputText(items[..i])
      {
        assert items[..i + 1][..i] == items[..i];
        s := s + AsText(items[i]);
      }
      assert items[..|items|] == items;
    }

    /** The messages rule's loop. */
    method ConcatMessages(items: seq<Json>) returns (s: string)
      ensures s == MessagesText(items)
    {
      s := "";
      for i := 0 to |items|
        invariant s == MessagesText(items[..i])
      {
        assert items[..i + 1][..i] == items[..i];
        var m := items[i];
        ghost var before := s;
        if Has(m, "text") {
          s := s + AsText(Get(m, "text"));
        }
        if Has(m, "content") {
          s := s + AsText(Get(m, "content"));
        }
        assert s == before + MessageText(m);
      }
      assert items[..|items|] == items;
    }

    /** embed(text). */
    method Embed(text: Option<string>) returns (r: Option<seq<Option<Double>>>)
      modifies net
      ensures var R := EmbedRun(text, coerce, old(net.replies));
        r == R.value && net.replies == R.rest && net.sent == old(net.sent) + R.sent
    {
      if text.None? {
        return None;
      }
      var reply := net.Post(EmbedRequest(text.value));
      if !reply.Answer? {
        return None;
      }
      r := EmbeddingOf(reply.json, coerce);
    }
  }
}
