/** The chat client as one state machine: the page (frontend/app/page.tsx)
    with its message box (frontend/components/ChatInput.tsx) and its quick
    replies (frontend/components/QuickReplies.tsx). Each event is handled
    against the state the last render showed; `inFlight` counts the chat
    requests that have gone out and not settled. */
module ClientApp {
  import opened Wrappers
  import opened Text
  import opened Transport
  import opened ChatPage
  import opened ChatInput
  import opened QuickReplies

  /** The page state, the box's text, the quick-reply index and the number
      of chat requests in flight. */
  datatype App = App(page: Page, input: string, rotation: nat, inFlight: nat)

  const Start := App(ChatPage.Initial, "", QuickReplies.StartIndex, 0)

  /** What the user, the timer and the network can do. */
  datatype Event =
    | Type(text: string)
    | PressKey(key: KeyEvent, now: int)
    | ClickSend(now: int)
    | ClickQuickReply(slot: nat, now: int)
    | ChatSettled(outcome: Result<ChatResponse, FetchError>, now: int)
    | HealthDone(health: Result<HealthResponse, FetchError>)
    | GreetingDone(greeting: Result<GreetingResponse, FetchError>)
    | RotationTick

  /** The page's `handleSendMessage` called with `forwarded`, if anything
      was forwarded. */
  function Forward(a: App, forwarded: Option<string>, now: int): App {
    match forwarded
    case None => a
    case Some(m) =>
      var (p, pending) := StartSend(a.page, m, now);
      a.(page := p, inFlight := if pending.Some? then a.inFlight + 1 else a.inFlight)
  }

  /** One event. A disabled control does nothing; the quick replies exist
      only while the page shows them; a settle with nothing in flight
      cannot happen and is ignored. */
  function Step(a: App, e: Event): App {
    var disabled := InputDisabled(a.page);
    match e
    case Type(text) =>
      if TextAreaDisabled(a.page.loading, disabled) then a else a.(input := text)
    case PressKey(key, now) =>
      var (sent, _) := HandleKeyPress(a.input, key, a.page.loading, disabled);
      Forward(a.(input := sent.text), sent.forwarded, now)
    case ClickSend(now) =>
      if ButtonDisabled(a.input, a.page.loading, disabled) then a
      else
        var sent := HandleSend(a.input, a.page.loading, disabled);
        Forward(a.(input := sent.text), sent.forwarded, now)
    case ClickQuickReply(slot, now) =>
      if ShowsQuickReplies(a.page) && slot < 2 && a.rotation < |Replies|
      then Forward(a, Some(Click(a.rotation, slot)), now)
      else a
    case ChatSettled(outcome, now) =>
      if a.inFlight > 0 then a.(page := SettleSend(a.page, outcome, now), inFlight := a.inFlight - 1)
      else a
    case HealthDone(health) => a.(page := HealthSettled(a.page, health).0)
    case GreetingDone(greeting) => a.(page := GreetingSettled(a.page, greeting))
    case RotationTick =>
      if ShowsQuickReplies(a.page) then a.(rotation := Tick(a.rotation)) else a
  }

  function Run(a: App, events: seq<Event>): App
    decreases |events|
  {
    if |events| == 0 then a else Step(Run(a, events[..|events| - 1]), events[|events| - 1])
  }

  /** Messages alternate user, assistant, user, ... from the first. */
  predicate Alternating(msgs: seq<ChatMessage>) {
    forall i :: 0 <= i < |msgs| ==> msgs[i].role == (if i % 2 == 0 then User else Assistant)
  }

  /** The client's invariant: at most one chat request is in flight and
      the page shows loading exactly while one is; the conversation
      alternates and ends on a user message exactly while loading; the
      quick-reply index is one the rotation reaches. */
  predicate Inv(a: App) {
    && a.inFlight <= 1
    && (a.page.loading <==> a.inFlight == 1)
    && Alternating(a.page.messages)
    && (|a.page.messages| % 2 == 1 <==> a.page.loading)
    && Reachable(a.rotation)
  }

  lemma StartInv()
    ensures Inv(Start)
  {
  }

  /** A send the page accepts appends a user message after an even-length
      conversation. */
  lemma ForwardKeepsInv(a: App, forwarded: Option<string>, now: int)
    requires Inv(a)
    requires forwarded.Some? ==> !a.page.loading
    ensures Inv(Forward(a, forwarded, now))
  {
    if forwarded.Some? {
      var (p, pending) := StartSend(a.page, forwarded.value, now);
      if pending.Some? {
        assert p.messages == a.page.messages + [ChatMessage(User, forwarded.value, Some(now))];
        forall i | 0 <= i < |p.messages|
          ensures p.messages[i].role == (if i % 2 == 0 then User else Assistant)
        {
          if i < |a.page.messages| {
            assert p.messages[i] == a.page.messages[i];
          }
        }
      }
    }
  }

  /** Every event keeps the invariant. A send cannot start while one is in
      flight: the box refuses while loading, and the quick replies, which
      skip that check, are gone once the conversation has a message. */
  lemma StepKeepsInv(a: App, e: Event)
    requires Inv(a)
    ensures Inv(Step(a, e))
  {
    var disabled := InputDisabled(a.page);
    match e
    case Type(_) =>
    case PressKey(key, now) =>
      var (sent, _) := HandleKeyPress(a.input, key, a.page.loading, disabled);
      ForwardKeepsInv(a.(input := sent.text), sent.forwarded, now);
    case ClickSend(now) =>
      var sent := HandleSend(a.input, a.page.loading, disabled);
      ForwardKeepsInv(a.(input := sent.text), sent.forwarded, now);
    case ClickQuickReply(slot, now) =>
      if ShowsQuickReplies(a.page) && slot < 2 && a.rotation < |Replies| {
        ForwardKeepsInv(a, Some(Click(a.rotation, slot)), now);
      }
    case ChatSettled(outcome, now) =>
      if a.inFlight > 0 {
        var p := SettleSend(a.page, outcome, now);
        forall i | 0 <= i < |p.messages|
          ensures p.messages[i].role == (if i % 2 == 0 then User else Assistant)
        {
          if i < |a.page.messages| {
            assert p.messages[i] == a.page.messages[i];
          }
        }
      }
    case HealthDone(_) =>
    case GreetingDone(_) =>
    case RotationTick =>
  }

  /** Every run from the fresh client keeps the invariant. */
  lemma {:induction false} RunKeepsInv(events: seq<Event>)
    ensures Inv(Run(Start, events))
    decreases |events|
  {
    if |events| == 0 {
      StartInv();
    } else {
      RunKeepsInv(events[..|events| - 1]);
      StepKeepsInv(Run(Start, events[..|events| - 1]), events[|events| - 1]);
    }
  }

  /** Messages are only ever appended: a step never edits or removes one,
      and adds at most one. */
  lemma StepAppendsOnly(a: App, e: Event)
    ensures var b := Step(a, e);
      && |a.page.messages| <= |b.page.messages| <= |a.page.messages| + 1
      && b.page.messages[..|a.page.messages|] == a.page.messages
  {
  }

  /** The quick replies ignore the health of the backend: on an unhealthy
      page with no messages, a click still sends its suggestion. */
  lemma QuickReplyIgnoresHealth(a: App, slot: nat, now: int)
    requires Inv(a) && ShowsQuickReplies(a.page) && !a.page.healthy && slot < 2
    ensures var b := Step(a, ClickQuickReply(slot, now));
      && b.inFlight == 1
      && b.page.messages == [ChatMessage(User, Window(a.rotation)[slot].message, Some(now))]
  {
    MessagesNotBlank();
    var m := Click(a.rotation, slot);
    assert !IsJsWhitespace(m[0]);
  }

  /** An enabled send button always starts a request carrying the trimmed
      text of the box, and empties the box. */
  lemma EnabledSendStarts(a: App, now: int)
    requires Inv(a) && !ButtonDisabled(a.input, a.page.loading, InputDisabled(a.page))
    ensures var b := Step(a, ClickSend(now));
      && b.inFlight == 1 && b.input == ""
      && b.page.messages == a.page.messages + [ChatMessage(User, Trim(a.input), Some(now))]
  {
    EnablingMatchesGuard(a.input, a.page.loading, InputDisabled(a.page));
    ForwardedIsTrimmed(a.input, a.page.loading, InputDisabled(a.page));
  }
}
