/** The fun-fact panel of the sidebar (frontend/components/Sidebar.tsx):
    `loadFunFact` as a start step and a settle step, the fallback fact, the
    refresh button, and the load on mount. */
module Sidebar {
  import opened Wrappers
  import opened Transport

  /** The panel's React state. */
  datatype Panel = Panel(fact: string, loading: bool)

  const Initial := Panel("", false)

  /** The fact shown when loading fails. */
  const FallbackFact := "UMD's mascot Testudo is a diamondback terrapin, Maryland's state reptile."

  /** `loadFunFact()` up to its `await`: loading starts before the request
      goes out, and the fact on screen stays until the call settles. */
  function StartLoad(p: Panel): (r: (Panel, Operation))
    ensures r.0.loading && r.0.fact == p.fact
    ensures r.1 == FunFact
  {
    (p.(loading := true), FunFact)
  }

  /** The rest of `loadFunFact()`: the server's fact, or the fallback when
      the call fails; loading ends either way. */
  function SettleLoad(p: Panel, outcome: Result<FunFactResponse, FetchError>): (r: Panel)
    ensures !r.loading
    ensures outcome.Success? ==> r.fact == outcome.value.fact
    ensures outcome.Failure? ==> r.fact == FallbackFact
  {
    match outcome
    case Success(resp) => Panel(resp.fact, false)
    case Failure(_) => Panel(FallbackFact, false)
  }

  /** The refresh button's `disabled={isLoadingFact}`. */
  predicate RefreshEnabled(p: Panel) {
    !p.loading
  }

  // ---------------------------------------------------------------------
  // The panel over time
  // ---------------------------------------------------------------------

  /** What can happen to the panel: it mounts (the effect runs once), the
      user clicks refresh, or the pending call settles. */
  datatype Event = Mount | Refresh | Settle(outcome: Result<FunFactResponse, FetchError>)

  /** The panel together with the number of fact requests in flight and
      whether it has mounted. */
  datatype Tracked = Tracked(panel: Panel, inFlight: nat, mounted: bool, loads: nat)

  /** One event. A click on the disabled button does nothing; a settle with
      nothing in flight cannot happen and is ignored. */
  function Step(t: Tracked, e: Event): (r: Tracked)
    ensures e.Refresh? && !RefreshEnabled(t.panel) ==> r == t
    ensures r.loads == t.loads || r.loads == t.loads + 1
  {
    match e
    case Mount =>
      if t.mounted then t
      else Tracked(StartLoad(t.panel).0, t.inFlight + 1, true, t.loads + 1)
    case Refresh =>
      if t.mounted && RefreshEnabled(t.panel) then Tracked(StartLoad(t.panel).0, t.inFlight + 1, true, t.loads + 1)
      else t
    case Settle(outcome) =>
      if t.inFlight > 0 then t.(panel := SettleLoad(t.panel, outcome), inFlight := t.inFlight - 1)
      else t
  }

  function Run(t: Tracked, events: seq<Event>): Tracked
    decreases |events|
  {
    if |events| == 0 then t else Step(Run(t, events[..|events| - 1]), events[|events| - 1])
  }

  const Start := Tracked(Initial, 0, false, 0)

  /** At most one fact request is in flight, the panel shows loading
      exactly while one is, and none is before the panel mounts. */
  predicate OneAtATime(t: Tracked) {
    && t.inFlight <= 1
    && (t.panel.loading <==> t.inFlight == 1)
    && (!t.mounted ==> t.inFlight == 0)
  }

  /** From the initial panel, every run keeps `OneAtATime`: the disabled
      refresh button is what stops a second request. */
  lemma {:induction false} RunOneAtATime(events: seq<Event>)
    ensures OneAtATime(Run(Start, events))
    decreases |events|
  {
    if |events| > 0 {
      RunOneAtATime(events[..|events| - 1]);
    }
  }

  /** Mounting loads exactly once, however often the mount event recurs:
      with no refresh, a run makes one request if it mounts and none
      otherwise. */
  lemma {:induction false} MountLoadsOnce(events: seq<Event>)
    requires forall i :: 0 <= i < |events| ==> !events[i].Refresh?
    ensures Run(Start, events).loads == (if Run(Start, events).mounted then 1 else 0)
    ensures Run(Start, events).mounted <==> Mount in events
    decreases |events|
  {
    if |events| > 0 {
      var init := events[..|events| - 1];
      MountLoadsOnce(init);
      assert forall e :: e in events <==> e in init || e == events[|events| - 1];
    }
  }
}
