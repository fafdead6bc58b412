/** The client's transport (frontend/lib/api.ts): the request each of the
    four operations sends, and how the answer is read. `fetch` is not
    modelled; what it produced is an input (`Fetched`). */
module Transport {
  import opened Wrappers

  /** `ChatMessage.role`. */
  datatype Role = User | Assistant

  /** The client's `ChatMessage`; `timestamp` is the optional `Date`, as
      milliseconds. */
  datatype ChatMessage = ChatMessage(role: Role, content: string, timestamp: Option<int>)

  /** One element of the `chat_history` the server receives. */
  datatype WireMessage = WireMessage(role: Role, content: string)

  /** The JSON body of a `/chat` request. */
  datatype ChatBody = ChatBody(message: string, chatHistory: seq<WireMessage>)

  datatype HttpMethod = Get | Post

  /** What `fetch` is asked for. */
  datatype Request = Request(verb: HttpMethod, url: string, body: Option<ChatBody>)

  /** The four operations, with their arguments. */
  datatype Operation =
    | SendChat(message: string, history: seq<ChatMessage>)
    | FunFact
    | Greeting
    | Health

  /** The response bodies the client expects. */
  datatype ChatResponse = ChatResponse(response: string, chatName: Option<string>)
  datatype FunFactResponse = FunFactResponse(fact: string)
  datatype GreetingResponse = GreetingResponse(greeting: string)
  datatype HealthResponse = HealthResponse(status: string, modelLoaded: bool, indexLoaded: bool)

  /** What `fetch` produced: no response at all, or a status and a body
      that parsed as JSON (`Some`) or did not (`None`). */
  datatype Fetched<B> = NetworkFailure | Answered(status: int, body: Option<B>)

  /** Why a call rejects. */
  datatype FetchError = Network | HttpStatus(status: int) | MalformedBody

  const DefaultBaseUrl := "http://localhost:8000"

  /** `process.env.NEXT_PUBLIC_API_URL || 'http://localhost:8000'`: an
      unset or empty setting falls back to the local server. */
  function BaseUrl(env: Option<string>): (u: string)
    ensures env.Some? && env.value != "" ==> u == env.value
    ensures env.None? || env.value == "" ==> u == DefaultBaseUrl
    ensures u != ""
  {
    if env.Some? && env.value != "" then env.value else DefaultBaseUrl
  }

  /** Feeding the resolved base URL back in as the setting resolves to the
      same URL, and only the empty string is ever replaced. */
  lemma BaseUrlStable(env: Option<string>)
    ensures BaseUrl(Some(BaseUrl(env))) == BaseUrl(env)
    ensures BaseUrl(env) != DefaultBaseUrl ==> env == Some(BaseUrl(env))
  {
  }

  /** `chatHistory.map(msg => ({role: msg.role, content: msg.content}))`. */
  function Project(history: seq<ChatMessage>): (w: seq<WireMessage>)
    ensures |w| == |history|
    ensures forall i :: 0 <= i < |w| ==> w[i].role == history[i].role && w[i].content == history[i].content
  {
    seq(|history|, i requires 0 <= i < |history| => WireMessage(history[i].role, history[i].content))
  }

  /** The projection drops exactly the timestamps: two histories project
      alike if and only if they agree on every role and content. */
  lemma ProjectDropsOnlyTimestamps(a: seq<ChatMessage>, b: seq<ChatMessage>)
    ensures Project(a) == Project(b) <==>
      |a| == |b| && forall i :: 0 <= i < |a| ==> a[i].role == b[i].role && a[i].content == b[i].content
  {
    if |a| == |b| && forall i :: 0 <= i < |a| ==> a[i].role == b[i].role && a[i].content == b[i].content {
      assert forall i :: 0 <= i < |a| ==> Project(a)[i] == Project(b)[i];
    }
    if Project(a) == Project(b) {
      forall i | 0 <= i < |a|
        ensures a[i].role == b[i].role && a[i].content == b[i].content
      {
        assert Project(a)[i] == Project(b)[i];
      }
    }
  }

  /** The request an operation sends under base URL `base`. */
  function RequestFor(base: string, op: Operation): (r: Request)
    ensures op.SendChat? <==> r.verb == Post
    ensures op.SendChat? <==> r.body.Some?
    ensures op.SendChat? ==> r.body.value.message == op.message
    ensures op.SendChat? ==> r.body.value.chatHistory == Project(op.history)
  {
    match op
    case SendChat(message, history) => Request(Post, base + "/chat", Some(ChatBody(message, Project(history))))
    case FunFact => Request(Get, base + "/fun-fact", None)
    case Greeting => Request(Get, base + "/greeting", None)
    case Health => Request(Get, base + "/health", None)
  }

  /** The path of a request below the base URL. */
  function PathOf(base: string, r: Request): string
    requires |base| <= |r.url|
  {
    r.url[|base|..]
  }

  /** Every operation goes to its own path under the base URL: `/chat`,
      `/fun-fact`, `/greeting` and `/health`, so the path tells the
      operation apart. */
  lemma RequestPaths(base: string, op: Operation, op2: Operation)
    ensures var r := RequestFor(base, op);
      && |base| <= |r.url| && r.url[..|base|] == base
      && PathOf(base, r) == (match op
                             case SendChat(_, _) => "/chat"
                             case FunFact => "/fun-fact"
                             case Greeting => "/greeting"
                             case Health => "/health")
    ensures PathOf(base, RequestFor(base, op)) == PathOf(base, RequestFor(base, op2)) ==>
      op.SendChat? == op2.SendChat? && (!op.SendChat? ==> op == op2)
  {
    var r := RequestFor(base, op);
    var r2 := RequestFor(base, op2);
    assert r.url[..|base|] == base;
    assert r2.url[..|base|] == base;
    assert PathOf(base, r) == r.url[|base|..];
  }

  /** `response.ok`. */
  predicate IsOk(status: int) {
    200 <= status <= 299
  }

  /** What every one of the four calls resolves to. */
  function Classify<B>(f: Fetched<B>): (r: Result<B, FetchError>)
    ensures f.NetworkFailure? ==> r == Failure(Network)
    ensures f.Answered? && !IsOk(f.status) ==> r == Failure(HttpStatus(f.status))
    ensures f.Answered? && IsOk(f.status) && f.body.Some? ==> r == Success(f.body.value)
    ensures f.Answered? && IsOk(f.status) && f.body.None? ==> r == Failure(MalformedBody)
  {
    match f
    case NetworkFailure => Failure(Network)
    case Answered(status, body) =>
      if !IsOk(status) then Failure(HttpStatus(status))
      else if body.None? then Failure(MalformedBody)
      else Success(body.value)
  }

  /** A call yields a value exactly when the server answered 2xx with a
      readable body, and then the value is that body unchanged; a status
      error always carries the status it was given, and only non-2xx
      statuses produce one. */
  lemma ClassifyOutcomes<B>(f: Fetched<B>)
    ensures Classify(f).Success? <==> f.Answered? && IsOk(f.status) && f.body.Some?
    ensures Classify(f).Success? ==> Classify(f).value == f.body.value
    ensures forall s :: Classify(f) == Failure(HttpStatus(s)) <==> f.Answered? && !IsOk(f.status) && s == f.status
  {
  }
}
