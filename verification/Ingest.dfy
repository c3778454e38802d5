/** The two ingest transactions over one node: local events are stamped, replicated ones kept as sent. */
module Ingest {
  import opened Bytes
  import opened Hlc
  import opened Store

  const RESOLUTION_STREAM: Text := Ascii("system:conflict_resolution")

  /** A daemon's state: its store, its in-memory clock, and its device identity. */
  datatype Node = Node(store: Store, hlc: Timestamp, device: Text)

  /** The in-memory clock is the persisted one. */
  ghost predicate ValidNode(n: Node) {
    Valid(n.store) && n.hlc == n.store.clock && n.device != []
  }

  datatype Error =
    | NetworkRequired
    | StreamRequired
    | ReservedStream
    | InvalidEnvelope
    | MalformedResolution
    | DifferentContent
    | CorruptIndex
    | ClockFailed
    | SequenceExhausted

  /** A transaction either commits a new node or is rejected and leaves the node as it was. */
  datatype Commit = Committed(node: Node, event: Event, created: bool) | Rejected(error: Error)

  /** An ingest request; an empty ID or a zero time means the field was omitted. */
  datatype Request = Request(network: Text, stream: Text, occurredAt: Time, eventId: Text, payload: Payload)

  /** validateIdempotentRetry */
  predicate IsRetryOf(existing: Event, q: Request) {
    && existing.stream == q.stream
    && (q.occurredAt > 0 ==> existing.occurredAt == q.occurredAt)
    && existing.payload == q.payload
  }

  /** The one transaction that stores an absent event and moves the clock. */
  function CommitNew(n: Node, e: Event, tick: Tick): Commit {
    if !tick.Ticked? then Rejected(ClockFailed)
    else match Append(n.store, e, tick.stamp)
      case None => Rejected(SequenceExhausted)
      case Some(store) => Committed(Node(store, tick.stamp, n.device), e, true)
  }

  function LocalEvent(n: Node, q: Request, wall: Instant, mint: Text, stamp: Timestamp): Event {
    Event(
      if q.eventId == [] then mint else q.eventId,
      q.network,
      q.stream,
      if q.occurredAt == 0 then wall else q.occurredAt,
      stamp.physical,
      stamp.physical,
      stamp.logical,
      n.device,
      q.payload)
  }

  function LocalRef(q: Request, mint: Text): Ref {
    Ref(q.network, if q.eventId == [] then mint else q.eventId)
  }

  /** ingestInternal: `mint` is the random ID used when the request names none. */
  function IngestInternal(n: Node, q: Request, wall: Instant, mint: Text): Commit {
    if q.network == [] then Rejected(NetworkRequired)
    else if q.stream == [] then Rejected(StreamRequired)
    else match Find(n.store, LocalRef(q, mint))
      case Corrupt => Rejected(CorruptIndex)
      case Found(existing) =>
        if IsRetryOf(existing, q) then Committed(n, existing, false) else Rejected(DifferentContent)
      case Absent =>
        var tick := NextLocal(n.hlc, wall);
        if !tick.Ticked? then Rejected(ClockFailed)
        else CommitNew(n, LocalEvent(n, q, wall, mint, tick.stamp), tick)
  }

  /** ingest: the public entry, which keeps the resolution stream for the daemon itself. */
  function IngestPublic(n: Node, q: Request, wall: Instant, mint: Text): Commit {
    if q.stream == RESOLUTION_STREAM then Rejected(ReservedStream) else IngestInternal(n, q, wall, mint)
  }

  /** The transaction of ingestReplicated on an envelope that has already been normalized. */
  function ApplyReplicated(n: Node, e: Event, wall: Instant): Commit {
    match Find(n.store, RefOf(e))
    case Corrupt => Rejected(CorruptIndex)
    case Found(existing) => if existing == e then Committed(n, existing, false) else Rejected(DifferentContent)
    case Absent => CommitNew(n, e, Merge(n.hlc, Stamp(e), wall))
  }

  /****** What the transactions keep ******/

  /** The effect of a committed transaction: the node's invariant holds again, nothing stored has
      changed, and exactly the named event is present, new or not. */
  ghost predicate Effect(n: Node, c: Commit)
    requires ValidNode(n) && c.Committed?
  {
    && ValidNode(c.node) && Extends(n.store, c.node.store) && c.node.device == n.device
    && c.node.store.siphons == n.store.siphons && c.node.store.observed == n.store.observed
    && c.created == (RefOf(c.event) !in Events(n.store))
    && Events(c.node.store) == Events(n.store)[RefOf(c.event) := c.event]
    && (!c.created ==> c.node == n)
    && c.node.store.sequence == n.store.sequence + if c.created then 1 else 0
  }

  lemma CommitNewEffect(n: Node, e: Event, tick: Tick)
    requires ValidNode(n) && Normalized(e) && RefOf(e) !in Events(n.store)
    requires tick.Ticked? ==> AtMost(n.hlc, tick.stamp) && AtMost(Stamp(e), tick.stamp)
    ensures CommitNew(n, e, tick).Committed? ==>
      Effect(n, CommitNew(n, e, tick)) && CommitNew(n, e, tick).event == e && CommitNew(n, e, tick).created
  {
    hide PrimaryKeyed, IdsIndexed, ArrivalsIndexed, ClockCovers, Extends;
    if CommitNew(n, e, tick).Committed? {
      FindIsEvents(n.store, RefOf(e));
      AppendKeepsValid(n.store, e, tick.stamp);
    }
  }

  lemma StampsBefore(n: Node, stamp: Timestamp)
    requires ValidNode(n) && Before(n.hlc, stamp)
    ensures forall r :: r in Events(n.store) ==> Before(Stamp(Events(n.store)[r]), stamp)
  {
    forall r | r in Events(n.store) ensures Before(Stamp(Events(n.store)[r]), stamp) {
      AtMostBefore(Stamp(Events(n.store)[r]), n.hlc, stamp);
    }
  }

  /** A committed local ingest keeps the invariant, answers a retry with the stored envelope, and
      stamps a new event strictly after every event the node already held. Old or new, the event is
      what was asked for, field by field; a time that was not given is the wall time. */
  lemma IngestInternalEffect(n: Node, q: Request, wall: Instant, mint: Text)
    requires ValidNode(n) && mint != []
    ensures var c := IngestInternal(n, q, wall, mint); c.Committed? ==>
      && Effect(n, c)
      && c.event.id == (if q.eventId == [] then mint else q.eventId)
      && c.event.network == q.network && c.event.stream == q.stream && c.event.payload == q.payload
      && (q.occurredAt > 0 ==> c.event.occurredAt == q.occurredAt)
      && (c.created ==>
            && (q.occurredAt == 0 ==> c.event.occurredAt == wall)
            && c.event.device == n.device
            && c.event.insertedAt == c.event.propagatedAt == c.node.hlc.physical
            && c.event.counter == c.node.hlc.logical
            && Before(n.hlc, Stamp(c.event))
            && c.node.hlc.physical == Max(n.hlc.physical, wall)
            && forall r :: r in Events(n.store) ==> Before(Stamp(Events(n.store)[r]), Stamp(c.event)))
  {
    hide PrimaryKeyed, IdsIndexed, ArrivalsIndexed;
    var c := IngestInternal(n, q, wall, mint);
    ExtendsReflexive(n.store);
    if c.Committed? {
      var r := LocalRef(q, mint);
      FindIsEvents(n.store, r);
      if c.created {
        var tick := NextLocal(n.hlc, wall);
        NextLocalIsLeastAhead(n.hlc, wall);
        assert n.hlc in {n.hlc};
        var e := LocalEvent(n, q, wall, mint, tick.stamp);
        CommitNewEffect(n, e, tick);
        StampsBefore(n, Stamp(e));
      }
    }
  }

  /** An ID that the node holds: the request is answered with the stored event if that has the requested
      stream and payload, and the requested time if one was given; else it is refused. Nothing changes
      either way. */
  lemma HeldIdDecides(n: Node, q: Request, wall: Instant, mint: Text)
    requires ValidNode(n) && mint != [] && q.network != [] && q.stream != []
    requires Ref(q.network, if q.eventId == [] then mint else q.eventId) in Events(n.store)
    ensures var e := Events(n.store)[Ref(q.network, if q.eventId == [] then mint else q.eventId)];
      IngestInternal(n, q, wall, mint) ==
        if e.stream == q.stream && e.payload == q.payload && (q.occurredAt > 0 ==> e.occurredAt == q.occurredAt)
        then Committed(n, e, false) else Rejected(DifferentContent)
  {
    FindIsEvents(n.store, LocalRef(q, mint));
  }

  /** Which local ingests fail, and only these: a name is missing, the ID is held with another content, or
      a counter has run out. A producer is refused the resolution stream before anything else. */
  lemma IngestInternalRejects(n: Node, q: Request, wall: Instant, mint: Text)
    requires ValidNode(n) && mint != []
    ensures IngestInternal(n, q, wall, mint).Rejected? <==>
      || q.network == []
      || q.stream == []
      || (var r := Ref(q.network, if q.eventId == [] then mint else q.eventId);
          if r in Events(n.store) then
            var e := Events(n.store)[r];
            e.stream != q.stream || e.payload != q.payload || (q.occurredAt > 0 && e.occurredAt != q.occurredAt)
          else
            (wall <= n.hlc.physical && n.hlc.logical == 0xFFFF_FFFF_FFFF_FFFF)
              || n.store.sequence == 0xFFFF_FFFF_FFFF_FFFF)
    ensures IngestInternal(n, q, wall, mint).Rejected? ==>
      var error := IngestInternal(n, q, wall, mint).error;
      var r := Ref(q.network, if q.eventId == [] then mint else q.eventId);
      && (error == NetworkRequired <==> q.network == [])
      && (error == StreamRequired <==> q.network != [] && q.stream == [])
      && (error == DifferentContent <==> q.network != [] && q.stream != [] && r in Events(n.store))
      && (q.network != [] && q.stream != [] && r !in Events(n.store) ==>
            error == if wall <= n.hlc.physical && n.hlc.logical == 0xFFFF_FFFF_FFFF_FFFF
                     then ClockFailed else SequenceExhausted)
    ensures IngestPublic(n, q, wall, mint) ==
      if q.stream == Ascii("system:conflict_resolution") then Rejected(ReservedStream)
      else IngestInternal(n, q, wall, mint)
  {
    FindIsEvents(n.store, LocalRef(q, mint));
  }

  /** A retry of a request that was committed returns the same event and changes nothing, at any
      later wall-clock time and after any transactions that only extended the store. */
  lemma RetryIsIdempotent(n: Node, q: Request, wall: Instant, mint: Text, later: Node, wall': Instant)
    requires ValidNode(n) && mint != [] && IngestInternal(n, q, wall, mint).Committed?
    requires ValidNode(later) && Extends(IngestInternal(n, q, wall, mint).node.store, later.store)
    ensures IngestInternal(later, q, wall', mint) == Committed(later, IngestInternal(n, q, wall, mint).event, false)
  {
    var c := IngestInternal(n, q, wall, mint);
    IngestInternalEffect(n, q, wall, mint);
    FindIsEvents(c.node.store, LocalRef(q, mint));
    FindIsEvents(later.store, LocalRef(q, mint));
  }

  /** A committed receive keeps the invariant, stores the envelope unchanged, and moves the clock
      past both the remote stamp and the local one. */
  lemma ApplyReplicatedEffect(n: Node, e: Event, wall: Instant)
    requires ValidNode(n) && Normalized(e)
    ensures var c := ApplyReplicated(n, e, wall); c.Committed? ==>
      && Effect(n, c)
      && c.event == e
      && (c.created ==>
            && Before(n.hlc, c.node.hlc) && Before(Stamp(e), c.node.hlc)
            && c.node.hlc.physical == Max(Max(n.hlc.physical, e.insertedAt), wall))
  {
    hide PrimaryKeyed, IdsIndexed, ArrivalsIndexed, ClockCovers;
    var c := ApplyReplicated(n, e, wall);
    FindIsEvents(n.store, RefOf(e));
    ExtendsReflexive(n.store);
    if c.Committed? && c.created {
      MergeIsLeastAhead(n.hlc, Stamp(e), wall);
      assert n.hlc in {n.hlc, Stamp(e)} && Stamp(e) in {n.hlc, Stamp(e)};
      CommitNewEffect(n, e, Merge(n.hlc, Stamp(e), wall));
    }
  }

  /** Which receives fail, and only these: another envelope is held under the ID, or a counter has run
      out at the greatest of the three times. */
  lemma ApplyReplicatedRejects(n: Node, e: Event, wall: Instant)
    requires ValidNode(n) && Normalized(e)
    ensures ApplyReplicated(n, e, wall).Rejected? <==>
      if RefOf(e) in Events(n.store) then Events(n.store)[RefOf(e)] != e
      else
        || (n.hlc.logical == 0xFFFF_FFFF_FFFF_FFFF && n.hlc.physical >= wall && n.hlc.physical >= e.insertedAt)
        || (e.counter == 0xFFFF_FFFF_FFFF_FFFF && e.insertedAt >= wall && e.insertedAt >= n.hlc.physical)
        || n.store.sequence == 0xFFFF_FFFF_FFFF_FFFF
    ensures ApplyReplicated(n, e, wall).Rejected? ==>
      var error := ApplyReplicated(n, e, wall).error;
      && error in {DifferentContent, ClockFailed, SequenceExhausted}
      && (error == DifferentContent <==> RefOf(e) in Events(n.store))
      && (error == SequenceExhausted ==> n.store.sequence == 0xFFFF_FFFF_FFFF_FFFF)
    ensures RefOf(e) in Events(n.store) && Events(n.store)[RefOf(e)] == e ==>
      ApplyReplicated(n, e, wall) == Committed(n, e, false)
  {
    FindIsEvents(n.store, RefOf(e));
    MergeIsLeastAhead(n.hlc, Stamp(e), wall);
  }
}
