/** The rotating quick replies (frontend/components/QuickReplies.tsx): six
    fixed suggestions shown two at a time, advanced by a 5-second interval
    timer. The timer's firing is an abstract tick event. */
module QuickReplies {
  import opened Text

  /** One suggestion: the button label and the message it sends. */
  datatype QuickReply = QuickReply(text: string, message: string)

  /** The suggestions, in order. */
  const Replies: seq<QuickReply> := [
    QuickReply("Course Reviews", "Show me some popular computer science courses"),
    QuickReply("Professor Info", "Who are the best professors for CMSC131?"),
    QuickReply("Dining Halls", "What are the best dining halls on campus?"),
    QuickReply("Course Schedule", "When does registration open for next semester?"),
    QuickReply("Study Tips", "Give me some study tips for finals week"),
    QuickReply("Campus Life", "What are some fun things to do on campus?")
  ]

  /** The index the component starts at. */
  const StartIndex: nat := 0

  /** One firing of the interval: `(prev + 2) % quickReplies.length`. */
  function Tick(i: nat): (j: nat)
    ensures j < |Replies|
  {
    (i + 2) % |Replies|
  }

  /** The index after `n` firings. */
  function Ticks(i: nat, n: nat): (j: nat)
    decreases n
  {
    if n == 0 then i else Tick(Ticks(i, n - 1))
  }

  /** The indices the rotation can show. */
  predicate Reachable(i: nat) {
    i == 0 || i == 2 || i == 4
  }

  /** From the start the index stays on 0, 2 or 4, moves by two each time
      and comes back after three firings. */
  lemma {:induction false} TicksFromStart(n: nat)
    ensures Reachable(Ticks(StartIndex, n))
    ensures Ticks(StartIndex, n) == (2 * n) % 6
    decreases n
  {
    if n > 0 {
      TicksFromStart(n - 1);
    }
  }

  /** Three firings bring any index back where it was. */
  lemma ThreeTicksCycle(i: nat)
    requires i < |Replies|
    ensures Ticks(i, 3) == i
    ensures Ticks(i, 1) != i && Ticks(i, 2) != i
  {
  }

  /** The two suggestions shown at index `i`. */
  function Window(i: nat): (w: seq<QuickReply>)
    requires i < |Replies|
    ensures |w| == 2 && w[0] == Replies[i] && w[1] == Replies[(i + 1) % |Replies|]
  {
    [Replies[i], Replies[(i + 1) % |Replies|]]
  }

  /** The suggestions are pairwise distinct, in label and in message. */
  lemma RepliesDistinct()
    ensures forall a, b :: 0 <= a < b < |Replies| ==>
      Replies[a].text != Replies[b].text && Replies[a].message != Replies[b].message
  {
  }

  /** The three windows the rotation shows split the six suggestions: each
      window holds two different ones, and each suggestion is in exactly
      one window, the one at the even index at or below it. */
  lemma WindowsPartition()
    ensures forall i :: Reachable(i) ==> Window(i)[0] != Window(i)[1]
    ensures forall k, j :: 0 <= k < |Replies| && Reachable(j) ==>
      (Replies[k] in Window(j) <==> j == k - k % 2)
  {
    RepliesDistinct();
  }

  /** A click on button `slot` of the window at index `i` sends that
      suggestion's message verbatim. */
  function Click(i: nat, slot: nat): (m: string)
    requires i < |Replies| && slot < 2
    ensures m == Window(i)[slot].message
    ensures exists k :: 0 <= k < |Replies| && m == Replies[k].message
  {
    Window(i)[slot].message
  }

  /** Every message a suggestion sends starts with a character that is not
      whitespace, so the page's blank check never drops it. */
  lemma MessagesNotBlank()
    ensures forall k :: 0 <= k < |Replies| ==>
      |Replies[k].message| > 0 && !IsJsWhitespace(Replies[k].message[0])
  {
    assert Replies[0].message == "Show me some popular computer science " + "courses";
    assert "Show me some popular computer science "[0] == 'S';
    assert Replies[1].message == "Who are the best professors for CMSC131?" && "Who are the best professors for CMSC131?"[0] == 'W';
    assert Replies[2].message == "What are the best dining halls on campus?" && "What are the best dining halls on campus?"[0] == 'W';
    assert Replies[3].message == "When does registration open for next semester?" && "When does registration open for next semester?"[0] == 'W';
    assert Replies[4].message == "Give me some study tips for finals week" && "Give me some study tips for finals week"[0] == 'G';
    assert Replies[5].message == "What are some fun things to do on campus?" && "What are some fun things to do on campus?"[0] == 'W';
  }

  // ---------------------------------------------------------------------
  // Timer lifecycle
  // ---------------------------------------------------------------------

  /** The component: whether it is mounted, the index it shows and the
      number of interval timers currently registered for it. */
  datatype Component = Component(mounted: bool, index: nat, timers: nat)

  /** Nothing mounted, no timer registered. */
  const Start := Component(false, StartIndex, 0)

  datatype Event = Mount | Fire | Unmount

  /** The effect with an empty dependency list. Mounting starts at index 0
      and registers one interval; unmounting runs the cleanup, which
      clears that interval. A firing is delivered only while a timer is
      registered. */
  function Step(c: Component, e: Event): Component {
    match e
    case Mount => if c.mounted then c else Component(true, StartIndex, c.timers + 1)
    case Fire => if c.timers > 0 then c.(index := Tick(c.index)) else c
    case Unmount =>
      if c.mounted then Component(false, c.index, if c.timers > 0 then c.timers - 1 else 0) else c
  }

  function Run(c: Component, events: seq<Event>): Component
    decreases |events|
  {
    if |events| == 0 then c else Step(Run(c, events[..|events| - 1]), events[|events| - 1])
  }

  /** A mounted component has exactly one timer and an unmounted one none;
      the index is 0, 2 or 4. */
  predicate Healthy(c: Component) {
    && c.timers == (if c.mounted then 1 else 0)
    && Reachable(c.index)
  }

  /** From the start, any sequence of mounts, firings and unmounts keeps
      exactly one timer while mounted, none while unmounted, and the index
      on 0, 2 or 4. */
  lemma {:induction false} RunKeepsOneTimer(events: seq<Event>)
    ensures Healthy(Run(Start, events))
    decreases |events|
  {
    if |events| > 0 {
      RunKeepsOneTimer(events[..|events| - 1]);
    }
  }

  /** After any history that leaves the component unmounted, no firing
      reaches it: the cleanup left no timer behind. A later mount starts
      again from index 0 with a single timer. */
  lemma UnmountedIgnoresFiring(events: seq<Event>)
    requires !Run(Start, events).mounted
    ensures Step(Run(Start, events), Fire) == Run(Start, events)
    ensures Step(Run(Start, events), Mount) == Component(true, StartIndex, 1)
  {
    RunKeepsOneTimer(events);
  }

  /** A mounted component advances its index by one `Tick` per firing. */
  lemma MountedFiringTicks(events: seq<Event>)
    requires Run(Start, events).mounted
    ensures Step(Run(Start, events), Fire).index == Tick(Run(Start, events).index)
    ensures Step(Run(Start, events), Fire).mounted
  {
    RunKeepsOneTimer(events);
  }
}
