/** web/src/lib/syncArticlesMachine.ts: the `syncArticles` statechart, its
    context (`title`) and the entry actions that set it. The running
    service is a machine value advanced one event at a time. */
module SyncArticles {
  import opened Wrappers

  datatype State = Idle | Syncing | Synced

  /** The events the chart reacts to: `sync`, `synced`, `syncFailed`, and
      the delayed transition `after: { 2000: ... }` firing. */
  datatype Event = Sync | SyncDone | SyncFailed | DelayElapsed(ms: nat)

  /** The delay of the `synced` state. */
  const SyncedDelay: nat := 2000

  datatype Machine = Machine(state: State, title: string)

  const IdleTitle: string := "Just Links"
  const SyncingTitle: string := "Syncing..."
  const SyncedTitle: string := "Synced!"

  /** The title each state's entry action assigns. */
  function TitleOf(s: State): string {
    match s
    case Idle => IdleTitle
    case Syncing => SyncingTitle
    case Synced => SyncedTitle
  }

  /** The started service: `initial: "idle"` with context title
      "Just Links" (idle's entry assigns the same). */
  const Initial: Machine := Machine(Idle, IdleTitle)

  /** The transition table. */
  function Target(s: State, e: Event): (t: Option<State>)
  {
    match (s, e)
    case (Idle, Sync) => Some(Syncing)
    case (Syncing, SyncDone) => Some(Synced)
    case (Syncing, SyncFailed) => Some(Idle)
    case (Synced, DelayElapsed(ms)) => if ms == SyncedDelay then Some(Idle) else None
    case _ => None
  }

  /** One event: a transition enters its target and runs the target's entry
      assignment; an event with no transition changes nothing. */
  function Step(m: Machine, e: Event): (m': Machine)
    ensures Target(m.state, e).Some? ==> m' == Machine(Target(m.state, e).value, TitleOf(Target(m.state, e).value))
    ensures Target(m.state, e).None? ==> m' == m
  {
    match Target(m.state, e)
    case Some(t) => Machine(t, TitleOf(t))
    case None => m
  }

  /** The outgoing transitions, exactly: anything not listed leaves the
      machine as it is. */
  lemma Transitions(m: Machine, e: Event)
    ensures Step(m, e) != m ==>
              || (m.state == Idle && e == Sync && Step(m, e) == Machine(Syncing, SyncingTitle))
              || (m.state == Syncing && e == SyncDone && Step(m, e) == Machine(Synced, SyncedTitle))
              || (m.state == Syncing && e == SyncFailed && Step(m, e) == Machine(Idle, IdleTitle))
              || (m.state == Synced && e == DelayElapsed(SyncedDelay) && Step(m, e) == Machine(Idle, IdleTitle))
    ensures m.state == Syncing && e == Sync ==> Step(m, e) == m
  {
  }

  /** The service after a sequence of events. */
  function Run(m: Machine, events: seq<Event>): Machine
    decreases |events|
  {
    if events == [] then m else Run(Step(m, events[0]), events[1..])
  }

  predicate Consistent(m: Machine) {
    m.title == TitleOf(m.state)
  }

  /** The title is always the one of the current state. */
  lemma {:induction false} RunKeepsTitle(m: Machine, events: seq<Event>)
    requires Consistent(m)
    ensures Consistent(Run(m, events))
    decreases |events|
  {
    if events != [] {
      RunKeepsTitle(Step(m, events[0]), events[1..]);
    }
  }

  lemma ServiceTitleMatchesState(events: seq<Event>)
    ensures Run(Initial, events).title == TitleOf(Run(Initial, events).state)
  {
    RunKeepsTitle(Initial, events);
  }

  /** `synced` is only entered from `syncing` on `synced`, and `syncing`
      only from `idle` on `sync`. */
  lemma EntryConditions(m: Machine, e: Event)
    ensures Step(m, e).state == Synced && m.state != Synced ==> m.state == Syncing && e == SyncDone
    ensures Step(m, e).state == Syncing && m.state != Syncing ==> m.state == Idle && e == Sync
  {
  }
}
