/**
 * The HTTP side of the client: the WebClient calls to the LLM service, given as a script of
 * replies that the calls consume in order.
 */
module Http {
  import opened JsonNode

  /** The service endpoints the client posts to. */
  datatype Endpoint = NativeGenerate | NativeChat | OpenAIChat | EmbedEndpoint

  function Path(e: Endpoint): string {
    match e
    case NativeGenerate => "/api/generate"
    case NativeChat => "/api/chat"
    case OpenAIChat => "/v1/chat/completions"
    case EmbedEndpoint => "/api/embed"
  }

  datatype Message = Message(role: string, content: string)

  /** The request bodies: {model, prompt, max_tokens}, {model, messages, max_tokens}, {model, input}. */
  datatype Body =
    | CompletionBody(model: string, prompt: string, maxTokens: int)
    | ChatBody(model: string, messages: seq<Message>, maxTokens: int)
    | EmbedBody(model: string, input: string)

  datatype Request = Request(endpoint: Endpoint, body: Body)

  /**
   * What one blocking POST gives back: a parsed JSON body, a null result (no body), a 404
   * status, or an exception (any other error status, a transport error, the timeout).
   */
  datatype Reply = Answer(json: Json) | NoBody | NotFound | Failed

  /** The reply the next call receives; a script that has run out stands for a call that times out. */
  function Next(replies: seq<Reply>): Reply {
    if |replies| == 0 then Failed else replies[0]
  }

  /** The script left after one call. */
  function Rest(replies: seq<Reply>): (rest: seq<Reply>)
    ensures |rest| == if |replies| == 0 then 0 else |replies| - 1
  {
    if |replies| == 0 then [] else replies[1..]
  }

  /** The outcome of a sequence of calls: its value, the replies left, the requests it sent. */
  datatype Run<+T> = Run(value: T, rest: seq<Reply>, sent: seq<Request>)

  /** The same run preceded by requests sent earlier. */
  function After<T>(earlier: seq<Request>, r: Run<T>): Run<T> {
    Run(r.value, r.rest, earlier + r.sent)
  }

  /** The LLM service as the client sees it. */
  class Network {
    /** The replies still to come, in the order the calls receive them. */
    var replies: seq<Reply>
    /** Every request posted so far, in order. */
    var sent: seq<Request>

    constructor (script: seq<Reply>)
      ensures replies == script && sent == []
    {
      replies := script;
      sent := [];
    }

    /** One blocking POST. */
    method Post(req: Request) returns (reply: Reply)
      modifies this
      ensures reply == Next(old(replies))
      ensures replies == Rest(old(replies))
      ensures sent == old(sent) + [req]
    {
      reply := if |replies| == 0 then Failed else replies[0];
      replies := if |replies| == 0 then [] else replies[1..];
      sent := sent + [req];
    }
  }
}
