/** Receiving a replicated event, and the preserve-both resolution that can recurse into it. */
module Replication {
  import opened Wrappers
  import opened Bytes
  import opened Hlc
  import opened Store
  import opened Ingest

  const PRESERVE_BOTH: Text := Ascii("preserve-both")

  /** The two hash functions: an envelope's digest, and the ID derived from it. */
  datatype Hashes = Hashes(digest: Event -> Text, recoveredId: (Text, Text, Text) -> Text)

  /** No two inputs hash alike, a derived ID is never empty, and no digest occurs in what it digests. */
  ghost predicate CollisionFree(h: Hashes) {
    && (forall e, f :: h.digest(e) == h.digest(f) ==> e == f)
    && (forall n, i, d, n', i', d' ::
          h.recoveredId(n, i, d) == h.recoveredId(n', i', d') ==> n == n' && i == i' && d == d')
    && (forall n, i, d :: h.recoveredId(n, i, d) != [])
    && (forall e {:trigger Recover(h, e)} :: Parse(e).Resolves? ==> Parse(Recover(h, e)).Resolves?)
  }

  datatype Parsed = Plain | Malformed | Resolves(target: Text)

  /** parseConflictResolution */
  function Parse(e: Event): Parsed {
    if e.stream != RESOLUTION_STREAM then Plain
    else match e.payload
      case Json(_) => Malformed
      case Resolution(version, eventId, strategy) =>
        if version != 1 || eventId == [] || strategy != PRESERVE_BOTH || eventId == e.id then Malformed
        else Resolves(eventId)
  }

  /** The reference a resolution event supersedes. */
  function TargetOf(e: Event): Ref
    requires Parse(e).Resolves?
  {
    Ref(e.network, Parse(e).target)
  }

  /** The copy of a collided variant under its digest-derived ID. */
  function Recover(h: Hashes, e: Event): Event {
    e.(id := h.recoveredId(e.network, e.id, h.digest(e)))
  }

  /** A recovered ID names one variant of one collided ID. */
  lemma RecoverInjective(h: Hashes, e: Event, f: Event)
    requires CollisionFree(h) && RefOf(Recover(h, e)) == RefOf(Recover(h, f))
    ensures e == f
  {
  }

  /** Every event stored under a recovered ID is the variant that ID was derived from. */
  ghost predicate Faithful(h: Hashes, m: map<Ref, Event>) {
    forall e: Event :: RefOf(Recover(h, e)) in m ==> m[RefOf(Recover(h, e))] == Recover(h, e)
  }

  /****** ingestReplicated and materializeConflictVariant ******/

  /** A call that ends has a node even when it fails: the transactions it committed before the
      failure stay. Diverged says the calls nested deeper than the given fuel. */
  datatype Outcome =
    | Done(node: Node, event: Option<Event>, created: bool)
    | Failed(node: Node, error: Error)
    | Diverged

  /** ingestReplicated; walls(at), walls(at + 1), ... are its successive readings of the clock. */
  function IngestReplicated(h: Hashes, n: Node, e: Event, walls: nat -> Instant, at: nat, fuel: nat): Outcome
    decreases fuel, 1
  {
    if !Normalized(e) then Failed(n, InvalidEnvelope)
    else if Parse(e).Malformed? then Failed(n, MalformedResolution)
    else match ApplyReplicated(n, e, walls(at))
      case Rejected(error) => Failed(n, error)
      case Committed(stored, event, created) =>
        if Parse(e).Plain? then Done(stored, Some(event), created)
        else match Materialize(h, stored, TargetOf(e), walls, at + 1, fuel)
          case Done(final, _, _) => Done(final, Some(event), created)
          case Failed(final, error) => Failed(final, error)
          case Diverged => Diverged
  }

  /** materializeConflictVariant: copies this node's own variant, if it has one. */
  function Materialize(h: Hashes, n: Node, r: Ref, walls: nat -> Instant, at: nat, fuel: nat): Outcome
    decreases fuel, 0
  {
    match Find(n.store, r)
    case Corrupt => Failed(n, CorruptIndex)
    case Absent => Done(n, None, false)
    case Found(original) =>
      if !Normalized(original) then Failed(n, InvalidEnvelope)
      else if fuel == 0 then Diverged
      else IngestReplicated(h, n, Recover(h, original), walls, at, fuel - 1)
  }

  ghost predicate Kept(n: Node, o: Outcome) {
    o.Diverged? || (
      && ValidNode(o.node) && Extends(n.store, o.node.store) && o.node.device == n.device
      && o.node.store.siphons == n.store.siphons && o.node.store.observed == n.store.observed)
  }

  /** However a receive ends, and wherever in the nested transactions it fails, the node's invariant
      holds and nothing stored was removed or changed. */
  lemma {:induction false} IngestReplicatedKeeps(h: Hashes, n: Node, e: Event, walls: nat -> Instant, at: nat,
      fuel: nat)
    requires ValidNode(n)
    ensures Kept(n, IngestReplicated(h, n, e, walls, at, fuel))
    decreases fuel, 1
  {
    hide PrimaryKeyed, IdsIndexed, ArrivalsIndexed, ClockCovers, Events;
    ExtendsReflexive(n.store);
    hide Extends;
    if Normalized(e) && !Parse(e).Malformed? {
      ApplyReplicatedEffect(n, e, walls(at));
      var c := ApplyReplicated(n, e, walls(at));
      if c.Committed? && Parse(e).Resolves? {
        MaterializeKeeps(h, c.node, TargetOf(e), walls, at + 1, fuel);
        var o := Materialize(h, c.node, TargetOf(e), walls, at + 1, fuel);
        if !o.Diverged? {
          ExtendsTransitive(n.store, c.node.store, o.node.store);
        }
      }
    }
  }

  lemma {:induction false} MaterializeKeeps(h: Hashes, n: Node, r: Ref, walls: nat -> Instant, at: nat, fuel: nat)
    requires ValidNode(n)
    ensures Kept(n, Materialize(h, n, r, walls, at, fuel))
    decreases fuel, 0
  {
    hide PrimaryKeyed, IdsIndexed, ArrivalsIndexed, ClockCovers;
    ExtendsReflexive(n.store);
    hide Extends;
    var found := Find(n.store, r);
    if found.Found? && Normalized(found.event) && fuel > 0 {
      IngestReplicatedKeeps(h, n, Recover(h, found.event), walls, at, fuel - 1);
    }
  }

  /** Once a call ends, more fuel does not change how. */
  lemma {:induction false} FuelIsIrrelevant(h: Hashes, n: Node, r: Ref, walls: nat -> Instant, at: nat, fuel: nat,
      more: nat)
    requires !Materialize(h, n, r, walls, at, fuel).Diverged? && fuel <= more
    ensures Materialize(h, n, r, walls, at, more) == Materialize(h, n, r, walls, at, fuel)
    decreases fuel
  {
    var found := Find(n.store, r);
    if found.Found? && Normalized(found.event) {
      var copy := Recover(h, found.event);
      if Normalized(copy) && Parse(copy).Resolves? {
        var c := ApplyReplicated(n, copy, walls(at));
        if c.Committed? {
          FuelIsIrrelevant(h, c.node, TargetOf(copy), walls, at + 1, fuel - 1, more - 1);
        }
      }
    }
  }

  /****** What a call means for the store ******/

  /** The envelopes that a receive refuses before it looks at the store: one with a missing part, and one
      on the resolution stream whose payload is not a resolution of version 1, strategy preserve-both
      and another event than itself. Any other fails with DifferentContent if another envelope is held
      under its ID. */
  lemma ReceiveRefuses(h: Hashes, n: Node, e: Event, walls: nat -> Instant, at: nat, fuel: nat)
    requires ValidNode(n)
    ensures var o := IngestReplicated(h, n, e, walls, at, fuel);
      if e.id == [] || e.network == [] || e.stream == [] || e.device == []
        || e.occurredAt == 0 || e.insertedAt == 0 || e.propagatedAt == 0 then o == Failed(n, InvalidEnvelope)
      else if e.stream == Ascii("system:conflict_resolution")
        && (e.payload.Resolution? ==>
              e.payload.version != 1 || e.payload.strategy != Ascii("preserve-both") || e.payload.eventId in {[], e.id})
      then o == Failed(n, MalformedResolution)
      else Ref(e.network, e.id) in Events(n.store) && Events(n.store)[Ref(e.network, e.id)] != e ==>
        o == Failed(n, DifferentContent)
  {
    FindIsEvents(n.store, RefOf(e));
  }

  /** A receive that ends well has stored the envelope as it was sent. */
  lemma ReceivedIsStored(h: Hashes, n: Node, e: Event, walls: nat -> Instant, at: nat, fuel: nat)
    requires ValidNode(n) && IngestReplicated(h, n, e, walls, at, fuel).Done?
    ensures var o := IngestReplicated(h, n, e, walls, at, fuel);
      var r := Ref(e.network, e.id);
      && o.event == Some(e) && o.created == (r !in Events(n.store))
      && r in Events(o.node.store) && Events(o.node.store)[r] == e
  {
    hide PrimaryKeyed, IdsIndexed, ArrivalsIndexed, ClockCovers;
    ApplyReplicatedEffect(n, e, walls(at));
    var c := ApplyReplicated(n, e, walls(at));
    if Parse(e).Resolves? {
      MaterializeKeeps(h, c.node, TargetOf(e), walls, at + 1, fuel);
      var final := IngestReplicated(h, n, e, walls, at, fuel).node;
      FindIsEvents(c.node.store, RefOf(e));
      FindIsEvents(final.store, RefOf(e));
    }
  }

  /** A copy that ends well: the node's own envelope under the given ID, if it holds one, is stored once
      more, changed in nothing but the ID, which is derived from the old one and the digest. */
  lemma MaterializeStoresCopy(h: Hashes, n: Node, r: Ref, walls: nat -> Instant, at: nat, fuel: nat)
    requires ValidNode(n) && Materialize(h, n, r, walls, at, fuel).Done?
    ensures var o := Materialize(h, n, r, walls, at, fuel);
      if r !in Events(n.store) then o == Done(n, None, false)
      else
        && o.event.Some?
        && var original, copy := Events(n.store)[r], o.event.value;
           var copyRef := Ref(r.network, h.recoveredId(r.network, r.id, h.digest(original)));
           && copy.id == copyRef.id && copy.(id := r.id) == original
           && o.created == (copyRef !in Events(n.store))
           && copyRef in Events(o.node.store) && Events(o.node.store)[copyRef] == copy
  {
    hide PrimaryKeyed, IdsIndexed, ArrivalsIndexed, ClockCovers;
    FindIsEvents(n.store, r);
    if r in Events(n.store) {
      ReceivedIsStored(h, n, Recover(h, Events(n.store)[r]), walls, at, fuel - 1);
    }
  }
}
