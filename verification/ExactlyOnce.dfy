/** Runs of a Processor on its durable siphon, with failures, crashes and retries at any point: what
    the deliveries leave in the store. */
module ExactlyOnce {
  import opened Wrappers
  import opened Bytes
  import opened Hlc
  import opened Digits
  import opened Store
  import opened Ingest
  import opened Siphons
  import opened Worker

  /** An acknowledged delivery. */
  datatype Done = Done(id: Text, events: seq<Event>)

  /** The node, the siphon's log, the acknowledged deliveries, and, lost in a crash, the delivery
      whose command has ended well. */
  datatype Work = Work(node: Node, log: seq<Batch>, acked: seq<Done>, finished: Option<Text>)

  datatype Act =
    | Elsewhere
    | Poll(limit: nat, id: Text)
    | Run(lines: nat, walls: nat -> Instant, exited: bool)
    | Acknowledge
    | Crash

  function SiphonOf(p: Processor): Ref {
    Ref(p.network, p.durable)
  }

  ghost function Pending(p: Processor, w: Work): Option<Done> {
    if SiphonOf(p) in w.node.store.siphons && w.node.store.siphons[SiphonOf(p)].pending.Some? then
      var q := w.node.store.siphons[SiphonOf(p)].pending.value;
      if Readable(w.node.store, q.keys) then Some(Done(q.id, EventsAt(w.node.store, q.keys))) else None
    else None
  }

  function Outs(p: Processor, d: Done): seq<Line> {
    OutputsOf(p.run(d.events))
  }

  function ProgressOf(w: Work): Progress {
    Progress(w.node.store, w.log)
  }

  ghost predicate IsDerived(hash: Text -> Text, p: Processor, x: Ref) {
    exists id, i: nat :: x == DerivedRef(hash, p, id, i)
  }

  /** One step. Anything else on the node may happen in between, except that nobody but the worker
      uses its derived IDs; delivery IDs are fresh. */
  ghost predicate WorkStep(hash: Text -> Text, p: Processor, w: Work, act: Act, w': Work) {
    var r := SiphonOf(p);
    match act
    case Elsewhere =>
      && SiphonStep(r, ProgressOf(w), Move.Other, ProgressOf(w')) && ValidNode(w'.node)
      && (forall x :: x in Events(w'.node.store) && IsDerived(hash, p, x) ==> x in Events(w.node.store))
      && w'.acked == w.acked && w'.finished == w.finished
    case Poll(limit, id) =>
      && PollStep(r, ProgressOf(w), limit, id, ProgressOf(w'))
      && w'.node == w.node.(store := w'.node.store)
      && (forall d :: d in w.acked ==> d.id != id)
      && w'.acked == w.acked && w'.finished == None
    case Run(k, walls, exited) =>
      && Pending(p, w).Some?
      && var d := Pending(p, w).value;
         var lines := p.run(d.events);
         k <= |lines|
         && var a := Consume(hash, p, w.node, d.id, lines[..k], walls);
            w' == w.(node := a.node, finished := if a.ok && k == |lines| && exited then Some(d.id) else None)
    case Acknowledge =>
      && Pending(p, w).Some? && w.finished == Some(Pending(p, w).value.id)
      && AckStep(r, ProgressOf(w), Pending(p, w).value.id, ProgressOf(w'))
      && w'.node == w.node.(store := w'.node.store)
      && w'.acked == w.acked + [Pending(p, w).value] && w'.finished == None
    case Crash => w' == w.(finished := None)
  }

  /****** The invariant ******/

  ghost predicate AllStored(hash: Text -> Text, p: Processor, m: map<Ref, Event>, acked: seq<Done>) {
    forall d {:trigger Outs(p, d)} :: d in acked ==> PrefixStored(hash, p, m, d.id, Outs(p, d), |Outs(p, d)|)
  }

  ghost predicate IdsDiffer(acked: seq<Done>, pending: Option<Done>) {
    && (forall i, j :: 0 <= i < j < |acked| ==> acked[i].id != acked[j].id)
    && (pending.Some? ==> forall d :: d in acked ==> d.id != pending.value.id)
  }

  /** x is the reference of an output of a delivery that was acknowledged or is pending. */
  ghost predicate Explained(hash: Text -> Text, p: Processor, acked: seq<Done>, pending: Option<Done>, x: Ref) {
    || (exists d, i: nat :: d in acked && x == DerivedRef(hash, p, d.id, i))
    || (pending.Some? && exists i: nat :: x == DerivedRef(hash, p, pending.value.id, i))
  }

  ghost predicate AllExplained(hash: Text -> Text, p: Processor, m: map<Ref, Event>, acked: seq<Done>,
      pending: Option<Done>) {
    forall x {:trigger IsDerived(hash, p, x)} :: x in m && IsDerived(hash, p, x) ==>
      Explained(hash, p, acked, pending, x)
  }

  ghost predicate PartlyStored(hash: Text -> Text, p: Processor, m: map<Ref, Event>, d: Done) {
    exists k :: PrefixStored(hash, p, m, d.id, Outs(p, d), k)
  }

  /** The acknowledged deliveries are those of the siphon's log. */
  ghost predicate Logged(s: Store, log: seq<Batch>, acked: seq<Done>) {
    var full := Deliveries(log);
    |full| == |acked| && forall i :: 0 <= i < |full| ==>
      Readable(s, full[i].keys) && EventsAt(s, full[i].keys) == acked[i].events
  }

  /** The batches of a log that were handed out. */
  function Deliveries(log: seq<Batch>): seq<Batch> {
    if log == [] then []
    else Deliveries(log[..|log| - 1]) + if log[|log| - 1].keys == [] then [] else [log[|log| - 1]]
  }

  ghost predicate IsFinished(hash: Text -> Text, p: Processor, m: map<Ref, Event>, pending: Option<Done>, id: Text) {
    && pending.Some? && pending.value.id == id
    && PrefixStored(hash, p, m, id, Outs(p, pending.value), |Outs(p, pending.value)|)
  }

  ghost predicate AllAnonymous(p: Processor) {
    forall events {:trigger p.run(events)} :: Anonymous(OutputsOf(p.run(events)))
  }

  ghost predicate WorkInv(hash: Text -> Text, p: Processor, start: uint64, w: Work) {
    && OutputHash(hash) && AllAnonymous(p)
    && ValidNode(w.node) && SiphonInv(SiphonOf(p), start, ProgressOf(w))
    && var m := Events(w.node.store);
       var pending := Pending(p, w);
       && (w.node.store.siphons[SiphonOf(p)].pending.Some? ==> pending.Some?)
       && IdsDiffer(w.acked, pending)
       && AllStored(hash, p, m, w.acked)
       && (pending.Some? ==> PartlyStored(hash, p, m, pending.value))
       && (w.finished.Some? ==> IsFinished(hash, p, m, pending, w.finished.value))
       && AllExplained(hash, p, m, w.acked, pending)
       && Logged(w.node.store, w.log, w.acked)
  }

  /** A Processor whose siphon has just been created has produced nothing. */
  lemma CreatedWorkInv(hash: Text -> Text, p: Processor, n: Node, streams: set<Text>, start: uint64, t: Store)
    requires OutputHash(hash) && AllAnonymous(p) && ValidNode(n) && n.store.sequence < MAX_UINT64
    requires start <= n.store.sequence
    requires Updated(n.store, SiphonOf(p), Siphon(streams, start, None), t)
    requires forall x :: x in Events(n.store) ==> !IsDerived(hash, p, x)
    ensures WorkInv(hash, p, start, Work(n.(store := t), [], [], None))
  {
    hide IsDerived, OutputHash, AllAnonymous;
    CreatedInv(SiphonOf(p), n.store, streams, start, t);
    UpdatedSame(n.store, SiphonOf(p), Siphon(streams, start, None), t);
  }

  /****** Steps that leave the outputs alone ******/

  /** Stored events stay, and no derived reference comes in. */
  ghost predicate Undisturbed(hash: Text -> Text, p: Processor, m: map<Ref, Event>, m': map<Ref, Event>) {
    && (forall x :: x in m ==> x in m' && m'[x] == m[x])
    && (forall x :: x in m' && IsDerived(hash, p, x) ==> x in m)
  }

  lemma PrefixUndisturbed(hash: Text -> Text, p: Processor, m: map<Ref, Event>, m': map<Ref, Event>, id: Text,
      outs: seq<Line>, k: nat)
    requires Undisturbed(hash, p, m, m') && PrefixStored(hash, p, m, id, outs, k)
    ensures PrefixStored(hash, p, m', id, outs, k)
  {
    forall i | 1 <= i <= k ensures StoredAs(hash, p, m', id, outs, i) {
      assert StoredAs(hash, p, m, id, outs, i);
    }
    forall i: nat | i == 0 || i > k ensures DerivedRef(hash, p, id, i) !in m' {
      assert IsDerived(hash, p, DerivedRef(hash, p, id, i));
    }
  }

  lemma StoredUndisturbed(hash: Text -> Text, p: Processor, m: map<Ref, Event>, m': map<Ref, Event>, acked: seq<Done>,
      pending: Option<Done>)
    requires Undisturbed(hash, p, m, m') && AllStored(hash, p, m, acked) && AllExplained(hash, p, m, acked, pending)
    ensures AllStored(hash, p, m', acked) && AllExplained(hash, p, m', acked, pending)
    ensures pending.Some? && PartlyStored(hash, p, m, pending.value) ==> PartlyStored(hash, p, m', pending.value)
  {
    hide PrefixStored, IsDerived, Explained;
    forall d | d in acked ensures PrefixStored(hash, p, m', d.id, Outs(p, d), |Outs(p, d)|) {
      PrefixUndisturbed(hash, p, m, m', d.id, Outs(p, d), |Outs(p, d)|);
    }
    if pending.Some? && PartlyStored(hash, p, m, pending.value) {
      var k :| PrefixStored(hash, p, m, pending.value.id, Outs(p, pending.value), k);
      PrefixUndisturbed(hash, p, m, m', pending.value.id, Outs(p, pending.value), k);
    }
  }

  lemma LoggedStays(s: Store, t: Store, log: seq<Batch>, acked: seq<Done>)
    requires Logged(s, log, acked) && forall k :: k in s.primary ==> k in t.primary && t.primary[k] == s.primary[k]
    ensures Logged(t, log, acked)
  {
    var full := Deliveries(log);
    forall i | 0 <= i < |full| ensures Readable(t, full[i].keys) && EventsAt(t, full[i].keys) == acked[i].events {
      EventsStay(s, t, full[i].keys);
    }
  }

  lemma EventsStay(s: Store, t: Store, keys: seq<Key>)
    requires Readable(s, keys) && forall k :: k in s.primary ==> k in t.primary && t.primary[k] == s.primary[k]
    ensures Readable(t, keys) && EventsAt(t, keys) == EventsAt(s, keys)
  {
  }

  lemma EventsGrow(s: Store, t: Store)
    requires Valid(s) && Valid(t) && Extends(s, t)
    ensures forall x :: x in Events(s) ==> x in Events(t) && Events(t)[x] == Events(s)[x]
  {
    hide ArrivalsIndexed, ClockCovers;
  }

  lemma FinishedUndisturbed(hash: Text -> Text, p: Processor, m: map<Ref, Event>, m': map<Ref, Event>,
      pending: Option<Done>, id: Text)
    requires Undisturbed(hash, p, m, m') && IsFinished(hash, p, m, pending, id)
    ensures IsFinished(hash, p, m', pending, id)
  {
    PrefixUndisturbed(hash, p, m, m', id, Outs(p, pending.value), |Outs(p, pending.value)|);
  }

  /** While the siphon's entry keeps its bounds and keys, the pending delivery is the same. */
  lemma PendingSame(p: Processor, w: Work, w': Work)
    requires Pending(p, w).Some? && SiphonOf(p) in w'.node.store.siphons
    requires w'.node.store.siphons[SiphonOf(p)].pending.Some?
    requires var q, q' :=
      w.node.store.siphons[SiphonOf(p)].pending.value, w'.node.store.siphons[SiphonOf(p)].pending.value;
      q'.id == q.id && q'.keys == q.keys
    requires forall k :: k in w.node.store.primary ==>
      k in w'.node.store.primary && w'.node.store.primary[k] == w.node.store.primary[k]
    ensures Pending(p, w') == Pending(p, w)
  {
    EventsStay(w.node.store, w'.node.store, w.node.store.siphons[SiphonOf(p)].pending.value.keys);
  }

  lemma UndisturbedKeeps(hash: Text -> Text, p: Processor, start: uint64, w: Work, w': Work)
    requires WorkInv(hash, p, start, w) && ValidNode(w'.node) && SiphonInv(SiphonOf(p), start, ProgressOf(w'))
    requires Undisturbed(hash, p, Events(w.node.store), Events(w'.node.store))
    requires forall k :: k in w.node.store.primary ==>
      k in w'.node.store.primary && w'.node.store.primary[k] == w.node.store.primary[k]
    requires w'.acked == w.acked && (w'.finished == w.finished || w'.finished == None)
    requires Deliveries(w'.log) == Deliveries(w.log)
    requires Pending(p, w') == Pending(p, w)
    requires (w'.node.store.siphons[SiphonOf(p)].pending.Some? ==> Pending(p, w').Some?)
    ensures WorkInv(hash, p, start, w')
  {
    hide ValidNode, SiphonInv, OutputHash, AllAnonymous, AllStored, AllExplained, PartlyStored, Undisturbed,
        IsFinished, IdsDiffer;
    var m, m' := Events(w.node.store), Events(w'.node.store);
    StoredUndisturbed(hash, p, m, m', w.acked, Pending(p, w));
    if w'.finished.Some? {
      FinishedUndisturbed(hash, p, m, m', Pending(p, w), w.finished.value);
    }
    LoggedStays(w.node.store, w'.node.store, w.log, w.acked);
  }

  lemma ElsewhereKeepsInv(hash: Text -> Text, p: Processor, start: uint64, w: Work, w': Work)
    requires WorkInv(hash, p, start, w) && WorkStep(hash, p, w, Elsewhere, w') && w'.node.store.sequence < MAX_UINT64
    ensures WorkInv(hash, p, start, w')
  {
    hide OutputHash, AllAnonymous, AllStored, AllExplained, PartlyStored, IsFinished, IdsDiffer, Logged, PrimaryKeyed,
        IdsIndexed, ArrivalsIndexed, ClockCovers, Exact, AllExact, Tiles, IsDerived;
    var r := SiphonOf(p);
    SiphonStepKeeps(r, start, ProgressOf(w), Move.Other, ProgressOf(w'));
    EventsGrow(w.node.store, w'.node.store);
    if Pending(p, w).Some? {
      PendingSame(p, w, w');
    }
    UndisturbedKeeps(hash, p, start, w, w');
  }

  lemma NothingStoredYet(hash: Text -> Text, p: Processor, m: map<Ref, Event>, acked: seq<Done>, id: Text,
      outs: seq<Line>)
    requires OutputHash(hash) && AllExplained(hash, p, m, acked, None) && Anonymous(outs)
    requires forall d :: d in acked ==> d.id != id
    ensures PrefixStored(hash, p, m, id, outs, 0)
  {
    forall i: nat ensures DerivedRef(hash, p, id, i) !in m {
      var x := DerivedRef(hash, p, id, i);
      assert IsDerived(hash, p, x);
      forall d, j: nat | d in acked ensures x != DerivedRef(hash, p, d.id, j) {
        DerivedRefInjective(hash, p, id, i, d.id, j);
      }
    }
  }

  /** A poll that finds a new delivery: none of its outputs is stored yet. */
  lemma NewDeliveryKeeps(hash: Text -> Text, p: Processor, start: uint64, w: Work, w': Work, id: Text)
    requires WorkInv(hash, p, start, w) && Pending(p, w) == None
    requires w'.node == w.node.(store := w'.node.store) && ValidNode(w'.node)
    requires SiphonInv(SiphonOf(p), start, ProgressOf(w'))
    requires Events(w'.node.store) == Events(w.node.store) && w'.node.store.primary == w.node.store.primary
    requires Pending(p, w').Some? && Pending(p, w').value.id == id && forall d :: d in w.acked ==> d.id != id
    requires w'.acked == w.acked && w'.finished == None && w'.log == w.log
    ensures WorkInv(hash, p, start, w')
  {
    hide ValidNode, SiphonInv, OutputHash, AllStored, PrefixStored, IsFinished;
    var m := Events(w.node.store);
    var d := Pending(p, w').value;
    assert Anonymous(OutputsOf(p.run(d.events)));
    NothingStoredYet(hash, p, m, w.acked, id, Outs(p, d));
    LoggedStays(w.node.store, w'.node.store, w.log, w.acked);
  }

  lemma PollKeepsInv(hash: Text -> Text, p: Processor, start: uint64, w: Work, limit: nat, id: Text, w': Work)
    requires WorkInv(hash, p, start, w) && WorkStep(hash, p, w, Poll(limit, id), w')
    ensures WorkInv(hash, p, start, w')
  {
    hide OutputHash, AllAnonymous, AllStored, AllExplained, PartlyStored, IsFinished, IdsDiffer, Logged, PrimaryKeyed,
        IdsIndexed, ArrivalsIndexed, ClockCovers, Exact, AllExact, Tiles, IsDerived, IsScan;
    var r := SiphonOf(p);
    var s, t := w.node.store, w'.node.store;
    SiphonStepKeeps(r, start, ProgressOf(w), PollOf(limit, id), ProgressOf(w'));
    UpdatedSame(s, r, t.siphons[r], t);
    if t.siphons[r].pending.Some? {
      PendingReadable(r, start, ProgressOf(w'));
    }
    if Pending(p, w).Some? {
      PendingSame(p, w, w');
      UndisturbedKeeps(hash, p, start, w, w');
    } else if Pending(p, w').Some? {
      NewDeliveryKeeps(hash, p, start, w, w', id);
    } else {
      assert Deliveries(w'.log) == Deliveries(w.log) by {
        if w'.log != w.log {
          assert w'.log[..|w'.log| - 1] == w.log;
        }
      }
      UndisturbedKeeps(hash, p, start, w, w');
    }
  }

  /****** Attempts ******/

  /** Only outputs of the delivery `id` have been added. */
  ghost predicate AddsOutputs(hash: Text -> Text, p: Processor, m: map<Ref, Event>, m': map<Ref, Event>, id: Text) {
    && (forall x :: x in m ==> x in m' && m'[x] == m[x])
    && (forall x :: x in m' ==> x in m || exists i: nat :: x == DerivedRef(hash, p, id, i))
  }

  lemma OthersKept(hash: Text -> Text, p: Processor, m: map<Ref, Event>, m': map<Ref, Event>, id: Text, other: Text,
      outs: seq<Line>, k: nat)
    requires OutputHash(hash) && AddsOutputs(hash, p, m, m', id) && other != id
    requires PrefixStored(hash, p, m, other, outs, k)
    ensures PrefixStored(hash, p, m', other, outs, k)
  {
    forall i | 1 <= i <= k ensures StoredAs(hash, p, m', other, outs, i) {
      assert StoredAs(hash, p, m, other, outs, i);
    }
    forall i: nat | i == 0 || i > k ensures DerivedRef(hash, p, other, i) !in m' {
      forall j: nat ensures DerivedRef(hash, p, other, i) != DerivedRef(hash, p, id, j) {
        DerivedRefInjective(hash, p, other, i, id, j);
      }
    }
  }

  lemma AttemptKeepsOutputs(hash: Text -> Text, p: Processor, m: map<Ref, Event>, m': map<Ref, Event>,
      acked: seq<Done>, d: Done)
    requires OutputHash(hash) && AddsOutputs(hash, p, m, m', d.id)
    requires AllStored(hash, p, m, acked) && AllExplained(hash, p, m, acked, Some(d)) && IdsDiffer(acked, Some(d))
    ensures AllStored(hash, p, m', acked) && AllExplained(hash, p, m', acked, Some(d))
  {
    hide OutputHash, PrefixStored;
    forall e | e in acked ensures PrefixStored(hash, p, m', e.id, Outs(p, e), |Outs(p, e)|) {
      OthersKept(hash, p, m, m', d.id, e.id, Outs(p, e), |Outs(p, e)|);
    }
    forall x | x in m' && IsDerived(hash, p, x) ensures Explained(hash, p, acked, Some(d), x) {
      if x in m {
        assert Explained(hash, p, acked, Some(d), x);
      }
    }
  }

  lemma RunStores(hash: Text -> Text, p: Processor, w: Work, k: nat, walls: nat -> Instant)
    requires OutputHash(hash) && ValidNode(w.node) && Pending(p, w).Some?
    requires PartlyStored(hash, p, Events(w.node.store), Pending(p, w).value)
    requires k <= |p.run(Pending(p, w).value.events)|
    ensures var d := Pending(p, w).value;
      var lines := p.run(d.events);
      var a := Consume(hash, p, w.node, d.id, lines[..k], walls);
      && ValidNode(a.node) && Extends(w.node.store, a.node.store) && a.node.store.siphons == w.node.store.siphons
      && AddsOutputs(hash, p, Events(w.node.store), Events(a.node.store), d.id)
      && PartlyStored(hash, p, Events(a.node.store), d)
      && (a.ok && k == |lines| ==> PrefixStored(hash, p, Events(a.node.store), d.id, Outs(p, d), |Outs(p, d)|))
  {
    hide PrefixStored, OutputHash, PrimaryKeyed, IdsIndexed, ArrivalsIndexed, ClockCovers, Consume;
    var d := Pending(p, w).value;
    var lines := p.run(d.events);
    var j :| PrefixStored(hash, p, Events(w.node.store), d.id, Outs(p, d), j);
    OutputsOfPrefix(lines, k);
    AttemptStoresPrefix(hash, p, w.node, d.id, lines[..k], Outs(p, d), walls, j);
    EventsGrow(w.node.store, Consume(hash, p, w.node, d.id, lines[..k], walls).node.store);
    PrefixBounded(hash, p, Events(w.node.store), d.id, Outs(p, d), j);
    if k == |lines| {
      assert lines[..k] == lines;
    }
  }

  lemma PrefixBounded(hash: Text -> Text, p: Processor, m: map<Ref, Event>, id: Text, outs: seq<Line>, k: nat)
    requires PrefixStored(hash, p, m, id, outs, k)
    ensures k <= |outs|
  {
  }

  lemma RunKeepsInv(hash: Text -> Text, p: Processor, start: uint64, w: Work, k: nat, walls: nat -> Instant,
      exited: bool, w': Work)
    requires WorkInv(hash, p, start, w) && WorkStep(hash, p, w, Run(k, walls, exited), w')
    requires w'.node.store.sequence < MAX_UINT64
    ensures WorkInv(hash, p, start, w')
  {
    hide OutputHash, AllAnonymous, AllStored, AllExplained, PartlyStored, IdsDiffer, Logged, PrimaryKeyed, IdsIndexed,
        ArrivalsIndexed, ClockCovers, Exact, AllExact, Tiles, IsDerived, Consume, PrefixStored, AddsOutputs;
    var d := Pending(p, w).value;
    RunStores(hash, p, w, k, walls);
    SiphonStepKeeps(SiphonOf(p), start, ProgressOf(w), Move.Other, ProgressOf(w'));
    PendingSame(p, w, w');
    AttemptKeepsOutputs(hash, p, Events(w.node.store), Events(w'.node.store), w.acked, d);
    LoggedStays(w.node.store, w'.node.store, w.log, w.acked);
  }

  /****** Acknowledgements ******/

  lemma AckKeepsInv(hash: Text -> Text, p: Processor, start: uint64, w: Work, w': Work)
    requires WorkInv(hash, p, start, w) && WorkStep(hash, p, w, Acknowledge, w')
    ensures WorkInv(hash, p, start, w')
  {
    hide OutputHash, AllAnonymous, PartlyStored, PrimaryKeyed, IdsIndexed, ArrivalsIndexed, ClockCovers, Exact,
        AllExact, Tiles, PrefixStored, AllExplained, AllStored, Logged;
    var d := Pending(p, w).value;
    var s, t := w.node.store, w'.node.store;
    SiphonStepKeeps(SiphonOf(p), start, ProgressOf(w), AckOf(d.id), ProgressOf(w'));
    UpdatedSame(s, SiphonOf(p), t.siphons[SiphonOf(p)], t);
    AckedStored(hash, p, Events(s), w.acked, d);
    AckedLogged(s, t, w.log, w'.log[|w.log|], w.acked, d);
  }

  lemma AckedStored(hash: Text -> Text, p: Processor, m: map<Ref, Event>, acked: seq<Done>, d: Done)
    requires AllStored(hash, p, m, acked) && AllExplained(hash, p, m, acked, Some(d))
    requires PrefixStored(hash, p, m, d.id, Outs(p, d), |Outs(p, d)|)
    ensures AllStored(hash, p, m, acked + [d]) && AllExplained(hash, p, m, acked + [d], None)
  {
    hide PrefixStored;
    forall x | x in m && IsDerived(hash, p, x) ensures Explained(hash, p, acked + [d], None, x) {
      assert Explained(hash, p, acked, Some(d), x);
      if exists e, i: nat :: e in acked && x == DerivedRef(hash, p, e.id, i) {
        var e, i: nat :| e in acked && x == DerivedRef(hash, p, e.id, i);
        assert e in acked + [d];
      } else {
        assert d in acked + [d];
      }
    }
  }

  lemma AckedLogged(s: Store, t: Store, log: seq<Batch>, b: Batch, acked: seq<Done>, d: Done)
    requires Logged(s, log, acked) && t.primary == s.primary
    requires b.keys != [] && Readable(s, b.keys) && EventsAt(s, b.keys) == d.events
    ensures Logged(t, log + [b], acked + [d])
  {
    assert (log + [b])[..|log|] == log;
    LoggedStays(s, t, log, acked);
    EventsStay(s, t, b.keys);
  }

  /****** Every run ******/

  lemma StepKeepsInv(hash: Text -> Text, p: Processor, start: uint64, w: Work, act: Act, w': Work)
    requires WorkInv(hash, p, start, w) && WorkStep(hash, p, w, act, w') && w'.node.store.sequence < MAX_UINT64
    ensures WorkInv(hash, p, start, w')
  {
    match act
    case Elsewhere => ElsewhereKeepsInv(hash, p, start, w, w');
    case Poll(limit, id) => PollKeepsInv(hash, p, start, w, limit, id, w');
    case Run(k, walls, exited) => RunKeepsInv(hash, p, start, w, k, walls, exited, w');
    case Acknowledge => AckKeepsInv(hash, p, start, w, w');
    case Crash => CrashKeepsInv(hash, p, start, w, w');
  }

  lemma CrashKeepsInv(hash: Text -> Text, p: Processor, start: uint64, w: Work, w': Work)
    requires WorkInv(hash, p, start, w) && WorkStep(hash, p, w, Crash, w')
    ensures WorkInv(hash, p, start, w')
  {
    hide OutputHash, AllAnonymous, AllStored, AllExplained, PartlyStored, IdsDiffer, Logged, ValidNode, SiphonInv;
    assert Pending(p, w') == Pending(p, w);
  }

  ghost predicate IsRun(hash: Text -> Text, p: Processor, works: seq<Work>, acts: seq<Act>) {
    && |works| == |acts| + 1
    && (forall k {:trigger acts[k]} :: 0 <= k < |acts| ==> WorkStep(hash, p, works[k], acts[k], works[k + 1]))
    && (forall k :: 0 <= k < |works| ==> works[k].node.store.sequence < MAX_UINT64)
  }

  lemma {:induction false} RunsKeepInv(hash: Text -> Text, p: Processor, start: uint64, works: seq<Work>,
      acts: seq<Act>)
    requires IsRun(hash, p, works, acts) && WorkInv(hash, p, start, works[0])
    ensures WorkInv(hash, p, start, works[|acts|])
    decreases |acts|
  {
    hide WorkInv, WorkStep;
    if acts != [] {
      var last := |acts| - 1;
      assert IsRun(hash, p, works[..last + 1], acts[..last]) by {
        forall k | 0 <= k < last
          ensures WorkStep(hash, p, works[..last + 1][k], acts[..last][k], works[..last + 1][k + 1])
        {
          assert WorkStep(hash, p, works[k], acts[k], works[k + 1]);
        }
      }
      RunsKeepInv(hash, p, start, works[..last + 1], acts[..last]);
      assert WorkStep(hash, p, works[last], acts[last], works[last + 1]);
      StepKeepsInv(hash, p, start, works[last], acts[last], works[last + 1]);
    }
  }

  /** Exactly-once derived output. After any run, the derived events in the store are exactly all the
      outputs of the acknowledged deliveries and the first k of the pending one's, each stored under
      its own reference as it was printed. */
  lemma DerivedExactlyOnce(hash: Text -> Text, p: Processor, start: uint64, works: seq<Work>, acts: seq<Act>)
    returns (k: nat)
    requires IsRun(hash, p, works, acts) && WorkInv(hash, p, start, works[0])
    ensures var w := works[|acts|];
      var m := Events(w.node.store);
      var pending := Pending(p, w);
      && (pending.None? ==> k == 0)
        && (pending.Some? ==> PrefixStored(hash, p, m, pending.value.id, Outs(p, pending.value), k))
      && AllStored(hash, p, m, w.acked)
      && (forall x :: x in m && IsDerived(hash, p, x) <==> IsOutput(hash, p, w.acked, pending, k, x))
      && Logged(w.node.store, w.log, w.acked)
  {
    RunsKeepInv(hash, p, start, works, acts);
    var w := works[|acts|];
    var m := Events(w.node.store);
    var pending := Pending(p, w);
    hide ValidNode, SiphonInv, Pending, Events, Outs, PrefixStored;
    k := 0;
    if pending.Some? {
      k :| PrefixStored(hash, p, m, pending.value.id, Outs(p, pending.value), k);
    }
    forall x ensures x in m && IsDerived(hash, p, x) <==> IsOutput(hash, p, w.acked, pending, k, x) {
      OutputsExplained(hash, p, m, w.acked, pending, k, x);
    }
  }

  /** And after any run every derived event is, field by field, one of those outputs as it was printed,
      and on a stream that the Processor is allowed to produce. */
  lemma DerivedAsPrinted(hash: Text -> Text, p: Processor, start: uint64, works: seq<Work>, acts: seq<Act>, x: Ref)
    returns (d: Done, i: nat)
    requires IsRun(hash, p, works, acts) && WorkInv(hash, p, start, works[0])
    requires x in Events(works[|acts|].node.store) && IsDerived(hash, p, x)
    ensures d in works[|acts|].acked || Pending(p, works[|acts|]) == Some(d)
    ensures 1 <= i <= |Outs(p, d)| && Outs(p, d)[i - 1].Output?
    ensures x == Ref(p.network, hash(p.network + [0] + p.name + [0] + d.id + [0] + Decimal(i)))
    ensures var e, o := Events(works[|acts|].node.store)[x], Outs(p, d)[i - 1];
      && e.stream == o.stream && e.stream in p.allowed && e.payload == o.payload
      && (o.occurredAt > 0 ==> e.occurredAt == o.occurredAt)
  {
    hide WorkInv, WorkStep, IsDerived, Outs, Events, Pending, AllStored, PrefixStored, Logged, IsOutput;
    var w := works[|acts|];
    var k := DerivedExactlyOnce(hash, p, start, works, acts);
    d, i := OutputPrinted(hash, p, Events(w.node.store), w.acked, Pending(p, w), k, x);
  }

  lemma OutputPrinted(hash: Text -> Text, p: Processor, m: map<Ref, Event>, acked: seq<Done>, pending: Option<Done>,
      k: nat, x: Ref) returns (d: Done, i: nat)
    requires AllStored(hash, p, m, acked) && IsOutput(hash, p, acked, pending, k, x)
    requires pending.Some? ==> PrefixStored(hash, p, m, pending.value.id, Outs(p, pending.value), k)
    ensures d in acked || pending == Some(d)
    ensures 1 <= i <= |Outs(p, d)| && Outs(p, d)[i - 1].Output? && x in m
    ensures x == Ref(p.network, hash(p.network + [0] + p.name + [0] + d.id + [0] + Decimal(i)))
    ensures m[x].stream == Outs(p, d)[i - 1].stream && m[x].stream in p.allowed
    ensures m[x].payload == Outs(p, d)[i - 1].payload
    ensures Outs(p, d)[i - 1].occurredAt > 0 ==> m[x].occurredAt == Outs(p, d)[i - 1].occurredAt
  {
    hide Outs, OutputSource;
    if exists e, j :: e in acked && 1 <= j <= |Outs(p, e)| && x == DerivedRef(hash, p, e.id, j) {
      d, i :| d in acked && 1 <= i <= |Outs(p, d)| && x == DerivedRef(hash, p, d.id, i);
    } else {
      d := pending.value;
      i :| 1 <= i <= k && x == DerivedRef(hash, p, d.id, i);
    }
    assert StoredAs(hash, p, m, d.id, Outs(p, d), i);
    assert Outs(p, d)[i - 1] in Outs(p, d);
    SourceIsText(p, d.id, i);
  }

  /** x is the reference of an output that must be stored by now. */
  ghost predicate IsOutput(hash: Text -> Text, p: Processor, acked: seq<Done>, pending: Option<Done>, k: nat, x: Ref) {
    || (exists d, i :: d in acked && 1 <= i <= |Outs(p, d)| && x == DerivedRef(hash, p, d.id, i))
    || (pending.Some? && exists i :: 1 <= i <= k && x == DerivedRef(hash, p, pending.value.id, i))
  }

  lemma OutputsExplained(hash: Text -> Text, p: Processor, m: map<Ref, Event>, acked: seq<Done>, pending: Option<Done>,
      k: nat, x: Ref)
    requires AllStored(hash, p, m, acked) && AllExplained(hash, p, m, acked, pending)
    requires pending.Some? ==> PrefixStored(hash, p, m, pending.value.id, Outs(p, pending.value), k)
    ensures x in m && IsDerived(hash, p, x) <==> IsOutput(hash, p, acked, pending, k, x)
  {
    if x in m && IsDerived(hash, p, x) {
      assert Explained(hash, p, acked, pending, x);
    }
    if exists d, i :: d in acked && 1 <= i <= |Outs(p, d)| && x == DerivedRef(hash, p, d.id, i) {
      var d, i :| d in acked && 1 <= i <= |Outs(p, d)| && x == DerivedRef(hash, p, d.id, i);
      assert StoredAs(hash, p, m, d.id, Outs(p, d), i);
    } else if pending.Some? && exists i :: 1 <= i <= k && x == DerivedRef(hash, p, pending.value.id, i) {
      var i :| 1 <= i <= k && x == DerivedRef(hash, p, pending.value.id, i);
      assert StoredAs(hash, p, m, pending.value.id, Outs(p, pending.value), i);
    }
  }

  /** Two outputs never share a reference. */
  lemma OutputsApart(hash: Text -> Text, p: Processor, start: uint64, w: Work, i: nat, j: nat, k: nat, l: nat)
    requires WorkInv(hash, p, start, w) && i < |w.acked| && j < |w.acked|
    requires DerivedRef(hash, p, w.acked[i].id, k) == DerivedRef(hash, p, w.acked[j].id, l)
    ensures i == j && k == l
  {
    hide ValidNode, SiphonInv, AllStored, AllExplained, Logged;
    DerivedRefInjective(hash, p, w.acked[i].id, k, w.acked[j].id, l);
  }
}
