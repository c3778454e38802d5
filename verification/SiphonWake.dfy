/** The wake channel of durable siphons: it is closed and replaced at every signal, and a waiter takes
    the present channel before it polls. */
module SiphonWake {
  import opened Wrappers

  /** A waiter: not waiting; holding a channel it took before polling; or blocked on it after a poll
      that saw the events `seen` in the store and had nothing to deliver. */
  datatype Waiter = Idle | Holding(channel: nat) | Blocked(channel: nat, seen: set<nat>)

  /** Channels are numbered; the present one is `current`, if it has been created. Ingested events
      are numbered as well: those stored, and those whose ingest has already signalled. */
  datatype WakeState = WakeState(current: Option<nat>, created: nat, closed: set<nat>,
    stored: set<nat>, signalled: set<nat>, waiters: map<nat, Waiter>)

  datatype WakeStep =
    | Commit(event: nat)
    | Signal(event: nat)
    | Take(waiter: nat)
    | Poll(waiter: nat, found: bool)
    | Wake(waiter: nat)
    | GiveUp(waiter: nat)

  const INITIAL: WakeState := WakeState(None, 0, {}, {}, {}, map[])

  function StateOf(w: WakeState, k: nat): Waiter {
    if k in w.waiters then w.waiters[k] else Idle
  }

  /** A poll that finds nothing has seen every stored event and they are no longer undelivered: each
      was delivered, is superseded, or is not wanted. */
  predicate Enabled(w: WakeState, s: WakeStep) {
    match s
    case Commit(e) => e !in w.stored
    case Signal(e) => e in w.stored
    case Take(k) => StateOf(w, k).Idle?
    case Poll(k, _) => StateOf(w, k).Holding?
    case Wake(k) => StateOf(w, k).Blocked? && StateOf(w, k).channel in w.closed
    case GiveUp(k) => StateOf(w, k).Blocked?
  }

  /** durableSiphonWakeChannel creates the channel when there is none yet; signalDurableSiphons closes
      the present one, if any, and always puts a new one in its place. */
  function Next(w: WakeState, s: WakeStep): WakeState
    requires Enabled(w, s)
  {
    match s
    case Commit(e) => w.(stored := w.stored + {e})
    case Signal(e) =>
      WakeState(Some(w.created), w.created + 1, if w.current.Some? then w.closed + {w.current.value} else w.closed,
            w.stored, w.signalled + {e}, w.waiters)
    case Take(k) =>
      if w.current.Some? then w.(waiters := w.waiters[k := Holding(w.current.value)])
      else w.(current := Some(w.created), created := w.created + 1, waiters := w.waiters[k := Holding(w.created)])
    case Poll(k, found) =>
      w.(waiters := w.waiters[k := if found then Idle else Blocked(StateOf(w, k).channel, w.stored)])
    case Wake(k) => w.(waiters := w.waiters[k := Idle])
    case GiveUp(k) => w.(waiters := w.waiters[k := Idle])
  }

  ghost predicate ChannelsSound(w: WakeState) {
    && (w.current.Some? ==> w.current.value < w.created && w.current.value !in w.closed)
    && (forall c :: c in w.closed ==> c < w.created)
    && w.signalled <= w.stored
  }

  /** An open channel is the present one, and what has been signalled was so before it was taken. */
  ghost predicate WaiterSound(w: WakeState, k: nat) {
    match StateOf(w, k)
    case Idle => true
    case Holding(c) => c in w.closed || w.current == Some(c)
    case Blocked(c, seen) => c in w.closed || (w.current == Some(c) && w.signalled <= seen)
  }

  ghost predicate WakeInv(w: WakeState) {
    ChannelsSound(w) && forall k {:trigger WaiterSound(w, k)} :: WaiterSound(w, k)
  }

  lemma InitialHolds()
    ensures WakeInv(INITIAL)
  {
  }

  lemma StepKeeps(w: WakeState, s: WakeStep)
    requires WakeInv(w) && Enabled(w, s)
    ensures WakeInv(Next(w, s))
  {
    var w' := Next(w, s);
    forall k: nat ensures WaiterSound(w', k) {
      assert WaiterSound(w, k);
    }
  }

  ghost predicate Reaches(w: WakeState, w': WakeState, n: nat)
    decreases n
  {
    if n == 0 then w == w' else exists s :: Enabled(w, s) && Reaches(Next(w, s), w', n - 1)
  }

  lemma {:induction false} ReachableHolds(w: WakeState, w': WakeState, n: nat)
    requires WakeInv(w) && Reaches(w, w', n)
    ensures WakeInv(w')
    decreases n
  {
    if n > 0 {
      var s :| Enabled(w, s) && Reaches(Next(w, s), w', n - 1);
      StepKeeps(w, s);
      ReachableHolds(Next(w, s), w', n - 1);
    }
  }

  /** No lost wakeup, under any interleaving of any number of waiters and ingests: a blocked waiter
      that has not seen an event whose ingest has signalled can be woken. */
  lemma NoLostWakeup(w: WakeState, n: nat, k: nat, e: nat)
    requires Reaches(INITIAL, w, n) && StateOf(w, k).Blocked? && e in w.signalled && e !in StateOf(w, k).seen
    ensures Enabled(w, Wake(k))
  {
    InitialHolds();
    ReachableHolds(INITIAL, w, n);
    assert WaiterSound(w, k);
  }

  /** Taking the channel only after the poll would lose wakeups: an event stored and signalled in
      between is neither seen nor signalled again. */
  lemma OrderMatters(seen: set<nat>, e: nat)
    requires e !in seen
    ensures var w := Next(Next(WakeState(Some(0), 1, {}, seen, seen, map[]), Commit(e)), Signal(e));
      var late := Next(w, Take(0));
      && e in late.signalled && StateOf(late, 0).channel !in late.closed
  {
  }

  /** The channel behind its mutex. Waiters and events are not part of this object. */
  class WakeChannel {
    var current: Option<nat>
    var created: nat
    var closed: set<nat>

    ghost predicate Shows(w: WakeState)
      reads this
    {
      w.current == current && w.created == created && w.closed == closed
    }

    constructor ()
      ensures Shows(INITIAL)
    {
      current, created, closed := None, 0, {};
    }

    /** durableSiphonWakeChannel */
    method Channel(ghost w: WakeState, ghost waiter: nat) returns (channel: nat)
      requires Shows(w) && Enabled(w, Take(waiter))
      modifies this
      ensures Shows(Next(w, Take(waiter))) && StateOf(Next(w, Take(waiter)), waiter) == Holding(channel)
      ensures current == Some(channel) && (old(current).Some? ==> current == old(current)) && closed == old(closed)
    {
      if current.None? {
        current := Some(created);
        created := created + 1;
      }
      channel := current.value;
    }

    /** signalDurableSiphons */
    method SignalAll(ghost w: WakeState, ghost event: nat)
      requires Shows(w) && Enabled(w, Signal(event))
      modifies this
      ensures Shows(Next(w, Signal(event)))
      ensures closed == old(closed) + (if old(current).Some? then {old(current).value} else {})
      ensures current == Some(old(created)) && created == old(created) + 1
    {
      if current.Some? {
        closed := closed + {current.value};
      }
      current := Some(created);
      created := created + 1;
    }
  }
}
