/** The chat page (frontend/app/page.tsx): its state, the health-then-
    greeting start-up, `handleSendMessage` split into the step that sends
    and the step that settles, and what the page offers the user. Every
    asynchronous call is a start step and a settle step; the call's
    outcome is an input of the settle step, and `now` stands for
    `new Date()`. */
module ChatPage {
  import opened Wrappers
  import opened Text
  import opened Transport

  /** The page's React state. */
  datatype Page = Page(messages: seq<ChatMessage>, loading: bool, greeting: string, healthy: bool)

  /** The state of a page that has just mounted. */
  const Initial := Page([], false, "", true)

  /** The assistant message shown when a send fails. */
  const Apology := "Sorry, I encountered an error while processing your request. Please try again."

  /** The greeting shown when start-up fails. */
  const FallbackGreeting := "Good day"

  // ---------------------------------------------------------------------
  // handleSendMessage
  // ---------------------------------------------------------------------

  /** The arguments a send passes to `sendChatMessage`. */
  datatype Pending = Pending(message: string, history: seq<ChatMessage>)

  /** `handleSendMessage(message)` up to its `await`: a blank message is
      dropped; any other is appended as given (not trimmed again) as a user
      message, loading starts, and the call goes out with the messages of
      the render the handler belongs to, before the new one. */
  function StartSend(p: Page, message: string, now: int): (r: (Page, Option<Pending>))
    ensures (forall k :: 0 <= k < |message| ==> IsJsWhitespace(message[k])) <==> r.1.None?
    ensures r.1.None? ==> r.0 == p
    ensures r.1.Some? ==>
      && r.0.messages == p.messages + [ChatMessage(User, message, Some(now))]
      && r.0.loading
      && r.0.greeting == p.greeting && r.0.healthy == p.healthy
      && r.1.value == Pending(message, p.messages)
  {
    TrimEmptyIffBlank(message);
    if Trim(message) == "" then (p, None)
    else (p.(messages := p.messages + [ChatMessage(User, message, Some(now))], loading := true),
          Some(Pending(message, p.messages)))
  }

  /** The request a pending send makes under base URL `base`. */
  function SendRequest(base: string, pending: Pending): Request {
    RequestFor(base, SendChat(pending.message, pending.history))
  }

  /** The text the assistant message of a settled send carries. */
  function ReplyText(outcome: Result<ChatResponse, FetchError>): string {
    match outcome
    case Success(resp) => resp.response
    case Failure(_) => Apology
  }

  /** The rest of `handleSendMessage` once the call settles: one assistant
      message is appended to whatever the list holds by then, carrying the
      answer or the apology, and loading ends either way. */
  function SettleSend(p: Page, outcome: Result<ChatResponse, FetchError>, now: int): (r: Page)
    ensures r.messages == p.messages + [ChatMessage(Assistant, ReplyText(outcome), Some(now))]
    ensures !r.loading && r.greeting == p.greeting && r.healthy == p.healthy
  {
    p.(messages := p.messages + [ChatMessage(Assistant, ReplyText(outcome), Some(now))], loading := false)
  }

  /** A whole send: the server sees the message exactly as given and the
      conversation as it was before it; the page gains the user message and
      then one answer, is idle again, and keeps every earlier message. */
  lemma SendThenSettle(p: Page, message: string, base: string, outcome: Result<ChatResponse, FetchError>, t1: int, t2: int)
    requires exists k :: 0 <= k < |message| && !IsJsWhitespace(message[k])
    ensures var (q, pending) := StartSend(p, message, t1);
      && pending.Some?
      && SendRequest(base, pending.value).body == Some(ChatBody(message, Project(p.messages)))
      && var r := SettleSend(q, outcome, t2);
      && |r.messages| == |p.messages| + 2
      && r.messages[..|p.messages|] == p.messages
      && r.messages[|p.messages|].role == User && r.messages[|p.messages|].content == message
      && r.messages[|p.messages| + 1].role == Assistant
      && (outcome.Success? ==> r.messages[|p.messages| + 1].content == outcome.value.response)
      && (outcome.Failure? ==> r.messages[|p.messages| + 1].content == Apology)
      && !r.loading
  {
    var (q, pending) := StartSend(p, message, t1);
    var r := SettleSend(q, outcome, t2);
    assert r.messages == p.messages + [ChatMessage(User, message, Some(t1)), ChatMessage(Assistant, ReplyText(outcome), Some(t2))];
  }

  // ---------------------------------------------------------------------
  // initializeApp
  // ---------------------------------------------------------------------

  /** The health check settles. On success the backend counts as healthy
      exactly when it says "healthy", and the greeting is requested whatever
      it said (`true` in the second component); on failure the greeting is
      never requested and the page falls back. */
  function HealthSettled(p: Page, outcome: Result<HealthResponse, FetchError>): (r: (Page, bool))
    ensures outcome.Success? ==> r.0 == p.(healthy := outcome.value.status == "healthy") && r.1
    ensures outcome.Failure? ==> r.0 == p.(healthy := false, greeting := FallbackGreeting) && !r.1
  {
    match outcome
    case Success(health) => (p.(healthy := health.status == "healthy"), true)
    case Failure(_) => (p.(healthy := false, greeting := FallbackGreeting), false)
  }

  /** The greeting request settles; a failure marks the backend unhealthy. */
  function GreetingSettled(p: Page, outcome: Result<GreetingResponse, FetchError>): (r: Page)
    ensures outcome.Success? ==> r == p.(greeting := outcome.value.greeting)
    ensures outcome.Failure? ==> r == p.(healthy := false, greeting := FallbackGreeting)
  {
    match outcome
    case Success(g) => p.(greeting := g.greeting)
    case Failure(_) => p.(healthy := false, greeting := FallbackGreeting)
  }

  /** `initializeApp` run to the end: the health outcome, then (only when
      it is requested) the greeting outcome. The second component tells
      whether the greeting was requested. */
  function Initialize(p: Page, health: Result<HealthResponse, FetchError>, greeting: Result<GreetingResponse, FetchError>): (Page, bool) {
    var (q, ask) := HealthSettled(p, health);
    if ask then (GreetingSettled(q, greeting), true) else (q, false)
  }

  /** Start-up ends in one of three ways: the health check fails (no
      greeting request, unhealthy, "Good day"); both succeed (healthy as
      the status says, the server's greeting); the greeting fails
      (unhealthy, "Good day"). The page ends healthy only if both calls
      succeed and the status is "healthy"; messages and loading are
      untouched. */
  lemma InitializeOutcomes(p: Page, health: Result<HealthResponse, FetchError>, greeting: Result<GreetingResponse, FetchError>)
    ensures var (r, asked) := Initialize(p, health, greeting);
      && (asked <==> health.Success?)
      && (health.Failure? ==> !r.healthy && r.greeting == FallbackGreeting)
      && (health.Success? && greeting.Success? ==>
            r.healthy == (health.value.status == "healthy") && r.greeting == greeting.value.greeting)
      && (health.Success? && greeting.Failure? ==> !r.healthy && r.greeting == FallbackGreeting)
      && (r.healthy <==> health.Success? && greeting.Success? && health.value.status == "healthy")
      && r.messages == p.messages && r.loading == p.loading
  {
  }

  // ---------------------------------------------------------------------
  // What the page offers
  // ---------------------------------------------------------------------

  /** The quick replies are rendered only while there is no message. */
  predicate ShowsQuickReplies(p: Page) {
    |p.messages| == 0
  }

  /** The `disabled` property the page gives the input box. */
  predicate InputDisabled(p: Page) {
    !p.healthy
  }

  /** The page starts empty, idle, with no greeting, counting the backend
      as healthy: the quick replies are offered and the input is enabled. */
  lemma InitialOffers()
    ensures Initial.messages == [] && !Initial.loading && Initial.greeting == "" && Initial.healthy
    ensures ShowsQuickReplies(Initial) && !InputDisabled(Initial)
  {
  }

  /** Once a message is accepted the quick replies disappear, and no later
      step of the page brings them back. */
  lemma QuickRepliesGoForGood(p: Page, message: string, now: int, outcome: Result<ChatResponse, FetchError>,
                              health: Result<HealthResponse, FetchError>, greeting: Result<GreetingResponse, FetchError>)
    ensures StartSend(p, message, now).1.Some? ==> !ShowsQuickReplies(StartSend(p, message, now).0)
    ensures !ShowsQuickReplies(SettleSend(p, outcome, now))
    ensures !ShowsQuickReplies(p) ==> !ShowsQuickReplies(StartSend(p, message, now).0)
    ensures ShowsQuickReplies(HealthSettled(p, health).0) == ShowsQuickReplies(p)
    ensures ShowsQuickReplies(GreetingSettled(p, greeting)) == ShowsQuickReplies(p)
  {
  }
}
