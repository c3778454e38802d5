/** The daemon object: its operations change the store, the clock and the indexes in place, and each
    is proved against the function or relation that the theorems speak about. */
module DaemonObject {
  import opened Wrappers
  import opened Bytes
  import opened Listing
  import opened Hlc
  import opened Store
  import opened Ingest
  import opened Replication
  import opened Replica
  import opened PreserveBoth
  import opened KeyCodec
  import opened Inventory
  import opened World
  import Chronology

  datatype Failure =
    | Refused(error: Error)
    | UnreadableStore
    | InvalidRequest
    | UnknownEvent
    | NotObserved
    | ConnectionLost
    | FrameTooLong
    | CursorNotAdvancing
    | WrongEvents
    | NotMounted
    | NotRegistered
    | DifferentStreams
    | NoPendingDelivery
    | WrongDelivery

  datatype Result<+T> = Ok(value: T) | Err(failure: Failure)

  datatype Stored = Stored(event: Option<Event>, created: bool)

  /** What resolving a conflict reports: the resolution event, the copy, and whether there was one before. */
  datatype Resolved = Resolved(resolution: Event, copy: Option<Event>, alreadyResolved: bool)

  datatype Compared = Compared(missing: seq<Text>, conflicts: seq<Text>)

  /** A resolution event of the network that does not parse. */
  ghost predicate Unreadable(m: map<Ref, Event>, network: Text) {
    exists x :: x in m && x.network == network && Parse(m[x]).Malformed?
  }

  ghost predicate IsResolutionOf(x: Event, r: Ref) {
    Parse(x).Resolves? && TargetOf(x) == r
  }

  predicate Earlier(e: Event, f: Event) {
    Less(Chronology.ChronologicalKey(e), Chronology.ChronologicalKey(f))
  }

  /** x is a stored resolution of r, and none is earlier. */
  ghost predicate IsFirstResolution(m: map<Ref, Event>, r: Ref, x: Event) {
    && x in m.Values && IsResolutionOf(x, r)
    && forall y :: y in m && IsResolutionOf(m[y], r) ==> !Earlier(m[y], x)
  }

  predicate Observed(s: Store, r: Ref) {
    exists o :: o in s.observed && Ref(o.network, o.id) == r
  }

  class Daemon {
    var store: Store
    var hlc: Timestamp
    const device: Text
    const h: Hashes

    ghost function State(): Node
      reads this
    {
      Node(store, hlc, device)
    }

    ghost function Held(): map<Ref, Event>
      reads this
    {
      Events(store)
    }

    /** Opening a store: the clock is what the last transaction persisted. */
    constructor (store: Store, device: Text, h: Hashes)
      ensures State() == Node(store, store.clock, device) && this.h == h
      ensures Valid(store) && device != [] ==> ValidNode(State())
    {
      this.store := store;
      this.hlc := store.clock;
      this.device := device;
      this.h := h;
    }

    /****** Ingest ******/

    /** The writes of one transaction, applied to the store only when all of them succeed. */
    method CommitEvent(e: Event, tick: Tick) returns (r: Result<Stored>)
      modifies this
      ensures match CommitNew(old(State()), e, tick)
        case Rejected(error) => State() == old(State()) && r == Err(Refused(error))
        case Committed(node, event, created) => State() == node && r == Ok(Stored(Some(event), created))
    {
      if !tick.Ticked? {
        return Err(Refused(ClockFailed));
      }
      if store.sequence == MAX_UINT64 {
        return Err(Refused(SequenceExhausted));
      }
      var txn := store;
      var key := KeyOf(e);
      txn := txn.(primary := txn.primary[key := e]);
      txn := txn.(ids := txn.ids[RefOf(e) := key]);
      var sequence: uint64 := txn.sequence + 1;
      txn := txn.(arrivals := txn.arrivals[Slot(e.network, sequence) := key]);
      txn := txn.(sequence := sequence);
      txn := txn.(clock := tick.stamp);
      store := txn;
      hlc := tick.stamp;
      r := Ok(Stored(Some(e), true));
    }

    /** An ID that is held is answered with the stored event if stream, payload and the time, if one was
        given, are those requested, and refused otherwise; a new event is stored as requested. */
    method IngestInternal(q: Request, wall: Instant, mint: Text) returns (r: Result<Stored>)
      modifies this
      ensures match Ingest.IngestInternal(old(State()), q, wall, mint)
        case Rejected(error) => State() == old(State()) && r == Err(Refused(error))
        case Committed(node, event, created) => State() == node && r == Ok(Stored(Some(event), created))
      ensures var ref := Ref(q.network, if q.eventId == [] then mint else q.eventId);
        old(ValidNode(State())) && mint != [] && q.network != [] && q.stream != [] && ref in old(Held()) ==>
          var e := old(Held())[ref];
          && State() == old(State())
          && r == if e.stream == q.stream && e.payload == q.payload
                    && (q.occurredAt > 0 ==> e.occurredAt == q.occurredAt)
                  then Ok(Stored(Some(e), false)) else Err(Refused(DifferentContent))
      ensures var ref := Ref(q.network, if q.eventId == [] then mint else q.eventId);
        old(ValidNode(State())) && mint != [] && ref !in old(Held()) && r.Ok? ==>
          && r.value.created && ref in Held() && r.value.event == Some(Held()[ref])
          && Held()[ref] == Event(ref.id, q.network, q.stream, if q.occurredAt > 0 then q.occurredAt else wall,
               hlc.physical, hlc.physical, hlc.logical, device, q.payload)
    {
      hide PrimaryKeyed, IdsIndexed, ArrivalsIndexed, ClockCovers, Extends;
      IngestMeans(State(), q, wall, mint);
      if q.network == [] {
        return Err(Refused(NetworkRequired));
      }
      if q.stream == [] {
        return Err(Refused(StreamRequired));
      }
      var occurredAt := q.occurredAt;
      if occurredAt == 0 {
        occurredAt := wall;
      }
      var id := q.eventId;
      if id == [] {
        id := mint;
      }
      match Find(store, Ref(q.network, id)) {
        case Corrupt =>
          r := Err(Refused(CorruptIndex));
        case Found(existing) =>
          if existing.stream != q.stream || (q.occurredAt > 0 && existing.occurredAt != occurredAt)
            || existing.payload != q.payload {
            r := Err(Refused(DifferentContent));
          } else {
            r := Ok(Stored(Some(existing), false));
          }
        case Absent =>
          var tick := NextLocal(hlc, wall);
          if !tick.Ticked? {
            return Err(Refused(ClockFailed));
          }
          var event := Event(id, q.network, q.stream, occurredAt, tick.stamp.physical, tick.stamp.physical,
                             tick.stamp.logical, device, q.payload);
          r := CommitEvent(event, tick);
      }
    }

    method IngestPublic(q: Request, wall: Instant, mint: Text) returns (r: Result<Stored>)
      modifies this
      ensures match Ingest.IngestPublic(old(State()), q, wall, mint)
        case Rejected(error) => State() == old(State()) && r == Err(Refused(error))
        case Committed(node, event, created) => State() == node && r == Ok(Stored(Some(event), created))
    {
      if q.stream == RESOLUTION_STREAM {
        return Err(Refused(ReservedStream));
      }
      r := IngestInternal(q, wall, mint);
    }

    /** How a recursive operation ended, for the caller of the method. */
    ghost predicate Ends(o: Outcome, r: Result<Stored>)
      reads this
    {
      match o
      case Done(node, event, created) => State() == node && r == Ok(Stored(event, created))
      case Failed(node, error) => State() == node && r == Err(Refused(error))
      case Diverged => false
    }

    method IngestReplicated(e: Event, walls: nat -> Instant, at: nat, ghost fuel: nat) returns (r: Result<Stored>)
      requires !Replication.IngestReplicated(h, State(), e, walls, at, fuel).Diverged?
      modifies this
      ensures Ends(Replication.IngestReplicated(h, old(State()), e, walls, at, fuel), r)
      decreases fuel, 1
    {
      if !Normalized(e) {
        return Err(Refused(InvalidEnvelope));
      }
      var parsed := Parse(e);
      if parsed.Malformed? {
        return Err(Refused(MalformedResolution));
      }
      match Find(store, RefOf(e)) {
        case Corrupt =>
          return Err(Refused(CorruptIndex));
        case Found(existing) =>
          if existing != e {
            return Err(Refused(DifferentContent));
          }
          r := Ok(Stored(Some(existing), false));
        case Absent =>
          var tick := Merge(hlc, Stamp(e), walls(at));
          r := CommitEvent(e, tick);
          if r.Err? {
            return;
          }
      }
      if parsed.Resolves? {
        var copied := MaterializeConflictVariant(Ref(e.network, parsed.target), walls, at + 1, fuel);
        if copied.Err? {
          return copied;
        }
      }
    }

    method MaterializeConflictVariant(r: Ref, walls: nat -> Instant, at: nat, ghost fuel: nat)
      returns (result: Result<Stored>)
      requires !Materialize(h, State(), r, walls, at, fuel).Diverged?
      modifies this
      ensures Ends(Materialize(h, old(State()), r, walls, at, fuel), result)
      decreases fuel, 0
    {
      match Find(store, r) {
        case Corrupt =>
          result := Err(Refused(CorruptIndex));
        case Absent =>
          result := Ok(Stored(None, false));
        case Found(original) =>
          if !Normalized(original) {
            return Err(Refused(InvalidEnvelope));
          }
          var digest := h.digest(original);
          var recovered := original.(id := h.recoveredId(original.network, original.id, digest));
          result := IngestReplicated(recovered, walls, at, fuel - 1);
      }
    }

    /****** Conflict resolutions ******/

    /** The IDs that the stored resolution events of a network supersede. */
    method ConflictResolutions(network: Text) returns (r: Result<set<Text>>)
      requires Valid(store)
      ensures r.Ok? ==> forall id :: id in r.value <==> Ref(network, id) in Superseded(Held())
      ensures r.Err? <==> Unreadable(Held(), network)
      ensures r.Err? ==> r.failure == UnreadableStore
    {
      hide PrimaryKeyed, IdsIndexed, ArrivalsIndexed, ClockCovers, Events, Superseded;
      var scan := set k | k in store.primary && k.network == network && k.stream == RESOLUTION_STREAM;
      var left := scan;
      var targets: set<Text> := {};
      ghost var seen: set<Key> := {};
      while left != {}
        invariant left <= scan && seen + left == scan
        invariant forall id :: id in targets <==> ResolvedBy(store, seen, id)
        invariant forall k :: k in seen ==> !Parse(store.primary[k]).Malformed?
        decreases |left|
      {
        var k :| k in left;
        ResolvedByStep(store, seen, k);
        var parsed := Parse(store.primary[k]);
        if parsed.Malformed? {
          StoredHeld(store, k);
          assert Ref(k.network, k.id) in Held() && Parse(Held()[Ref(k.network, k.id)]).Malformed?;
          return Err(UnreadableStore);
        }
        if parsed.Resolves? {
          targets := targets + {parsed.target};
        }
        left := left - {k};
        seen := seen + {k};
      }
      forall id ensures id in targets <==> Ref(network, id) in Superseded(Held()) {
        ScanFindsSuperseded(store, network, id);
      }
      ScanFindsMalformed(store, network);
      r := Ok(targets);
    }

    /** The first of the resolutions of an ID, by chronological key. */
    method FirstResolution(network: Text, eventId: Text) returns (x: Event)
      requires Valid(store) && Ref(network, eventId) in Superseded(Held())
      ensures IsFirstResolution(Held(), Ref(network, eventId), x)
    {
      hide PrimaryKeyed, IdsIndexed, ArrivalsIndexed, ClockCovers, Events, Superseded, Earlier;
      var scan := set k | k in store.primary && k.network == network && k.stream == RESOLUTION_STREAM;
      ScanFindsSuperseded(store, network, eventId);
      var left := scan;
      var found: Option<Event> := None;
      ghost var seen: set<Key> := {};
      while left != {}
        invariant left <= scan && seen + left == scan
        invariant found.Some? <==> ResolvedBy(store, seen, eventId)
        invariant found.Some? ==> IsFirstOf(store, seen, eventId, found.value)
        decreases |left|
      {
        var k :| k in left;
        ResolvedByStep(store, seen, k);
        var event := store.primary[k];
        if Parse(event) == Resolves(eventId) && (found.None? || Earlier(event, found.value)) {
          FirstOfStep(store, seen, k, eventId, found);
          found := Some(event);
        } else if found.Some? {
          FirstOfStays(store, seen, k, eventId, found.value);
        }
        left := left - {k};
        seen := seen + {k};
      }
      x := found.value;
      FirstOfAll(store, network, eventId, x);
    }

    /** resolveEventConflict. Nothing is written unless the conflict was observed or resolved before
        and the event is held; a second resolution of the same ID adds no second event. */
    method ResolveEventConflict(network: Text, eventId: Text, strategy: Text, wall: Instant, mint: Text,
        walls: nat -> Instant, ghost fuel: nat) returns (r: Result<Resolved>)
      requires ValidNode(State()) && mint != []
      requires !Materialize(h, ResolutionRecorded(State(), Ref(network, eventId), wall, mint),
        Ref(network, eventId), walls, 0, fuel).Diverged?
      modifies this
      ensures r.Err? && !r.failure.Refused? ==> State() == old(State())
      ensures var ref := Ref(network, eventId);
        var m := old(Held());
        var recorded := ResolutionRecorded(old(State()), ref, wall, mint);
        if network == [] || eventId == [] || strategy !in {[], Ascii("preserve-both")} then r == Err(InvalidRequest)
        else if Unreadable(m, network) then r == Err(UnreadableStore)
        else if ref !in Superseded(m)
          && (forall o :: o in old(store).observed ==> o.network != network || o.id != eventId)
          then r == Err(NotObserved)
        else if ref !in m then r == Err(UnknownEvent)
        else if ref !in Superseded(m)
          && Ingest.IngestInternal(old(State()), ResolutionRequest(ref), wall, mint).Rejected? then
          State() == old(State())
            && r == Err(Refused(Ingest.IngestInternal(old(State()), ResolutionRequest(ref), wall, mint).error))
        else match Materialize(h, recorded, ref, walls, 0, fuel)
          case Done(node, event, _) =>
            && State() == node && r.Ok? && r.value.copy == event && r.value.alreadyResolved == (ref in Superseded(m))
            && (ref in Superseded(m) ==> IsFirstResolution(m, ref, r.value.resolution))
            && (ref !in Superseded(m) ==>
                  r.value.resolution == Ingest.IngestInternal(old(State()), ResolutionRequest(ref), wall, mint).event)
          case Failed(node, error) => State() == node && r == Err(Refused(error))
          case Diverged => false
    {
      hide PrimaryKeyed, IdsIndexed, ArrivalsIndexed, ClockCovers, Superseded, Unreadable, IsFirstResolution;
      if network == [] || eventId == [] {
        return Err(InvalidRequest);
      }
      if strategy != [] && strategy != PRESERVE_BOTH {
        return Err(InvalidRequest);
      }
      var resolutions := ConflictResolutions(network);
      if resolutions.Err? {
        return Err(resolutions.failure);
      }
      var ref := Ref(network, eventId);
      if !Observed(store, ref) && eventId !in resolutions.value {
        return Err(NotObserved);
      }
      FindIsEvents(store, ref);
      if Find(store, ref).Absent? {
        return Err(UnknownEvent);
      }
      var alreadyResolved := eventId in resolutions.value;
      var resolution: Event;
      if alreadyResolved {
        resolution := FirstResolution(network, eventId);
      } else {
        var recorded := IngestInternal(ResolutionRequest(ref), wall, mint);
        if recorded.Err? {
          return Err(recorded.failure);
        }
        resolution := recorded.value.event.value;
      }
      var copied := MaterializeConflictVariant(ref, walls, 0, fuel);
      if copied.Err? {
        return Err(copied.failure);
      }
      r := Ok(Resolved(resolution, copied.value.event, alreadyResolved));
    }

    /** reconcileConflictResolutions: at startup every resolved ID's own variant is copied. */
    method ReconcileConflictResolutions(networks: seq<Text>, walls: nat -> Instant, ghost history: set<Event>)
      returns (r: Result<()>)
      requires Member(h, history, State())
      modifies this
      ensures Repairing(h, history, old(State()), State())
      ensures r.Ok? ==> AllRepaired(h, old(Held()), Held(), networks)
      ensures r.Ok? ==>
        forall x :: x in Superseded(old(Held())) && x.network in networks && x in old(Held()) ==>
          var copy := Ref(x.network, h.recoveredId(x.network, x.id, h.digest(old(Held())[x])));
          copy in Held() && Held()[copy].(id := x.id) == old(Held())[x]
      ensures r.Err? ==> r.failure == Refused(ClockFailed) || r.failure == Refused(SequenceExhausted)
      ensures NothingToRepair(h, old(Held())) ==> r.Ok?
    {
      hide Member, AllRepaired, NothingToRepair, Copied, Repairing, Superseded, Events;
      var i := 0;
      var at := 0;
      RepairingStart(h, history, State());
      NothingRepairedYet(h, Held());
      while i < |networks|
        invariant 0 <= i <= |networks|
        invariant Repairing(h, history, old(State()), State())
        invariant AllRepaired(h, old(Held()), Held(), networks[..i])
      {
        RepairingSound(h, history, old(State()), State());
        var resolved := ConflictResolutions(networks[i]);
        assert resolved.Ok?;
        r, at := ReconcileNetwork(networks[i], resolved.value, walls, at, history, old(State()), networks[..i]);
        if r.Err? {
          return;
        }
        assert networks[..i + 1] == networks[..i] + [networks[i]];
        i := i + 1;
      }
      assert networks[..i] == networks;
      forall x | x in Superseded(old(Held())) && x.network in networks && x in old(Held())
        ensures var copy := Ref(x.network, h.recoveredId(x.network, x.id, h.digest(old(Held())[x])));
          copy in Held() && Held()[copy].(id := x.id) == old(Held())[x]
      {
        CopyIsThere(h, history, old(State()), State(), networks, x);
      }
      r := Ok(());
    }

    /** The inner loop, over the resolved IDs of one network in any order. */
    method ReconcileNetwork(network: Text, ids: set<Text>, walls: nat -> Instant, at: nat,
        ghost history: set<Event>, ghost before: Node, ghost earlier: seq<Text>) returns (r: Result<()>, next: nat)
      requires Repairing(h, history, before, State()) && AllRepaired(h, Events(before.store), Held(), earlier)
      requires forall id :: id in ids <==> Ref(network, id) in Superseded(Events(before.store))
      modifies this
      ensures Repairing(h, history, before, State())
      ensures r.Ok? ==> AllRepaired(h, Events(before.store), Held(), earlier + [network])
      ensures r.Err? ==> r.failure == Refused(ClockFailed) || r.failure == Refused(SequenceExhausted)
      ensures r.Err? ==> !NothingToRepair(h, Events(before.store))
    {
      hide Member, AllRepaired, NothingToRepair, Copied, Repairing, Superseded, Events;
      next := at;
      var left := ids;
      ghost var done: set<Text> := {};
      while left != {}
        invariant done + left == ids
        invariant Repairing(h, history, before, State())
        invariant AllRepaired(h, Events(before.store), Held(), earlier)
        invariant forall id :: id in done ==> Copied(h, Held(), Ref(network, id))
        decreases |left|
      {
        var id :| id in left;
        ghost var n := State();
        RepairStep(h, history, before, n, Ref(network, id), walls, next);
        var copied := MaterializeConflictVariant(Ref(network, id), walls, next, 1);
        if copied.Err? {
          return Err(copied.failure), next;
        }
        AllRepairedStays(h, Events(before.store), Events(n.store), Held(), earlier);
        left := left - {id};
        done := done + {id};
        next := next + 1;
      }
      AllRepairedStep(h, Events(before.store), Held(), earlier, done, network);
      r := Ok(());
    }

    /****** What a synchronization session asks of a node ******/

    /** What an index position contributes to a page. */
    method EntryAt(network: Text, cursor: Text, position: Text, resolved: set<Text>) returns (entry: Option<Entry>)
      requires Valid(store)
      requires exists x :: x in store.ids && x.network == network && Encode(x.id) == position
      requires forall id :: id in resolved <==> Ref(network, id) in Superseded(Held())
      ensures entry.Some? <==> position in Behind(Held(), network, cursor)
      ensures entry.Some? ==> Encode(entry.value.id) == position
      ensures entry.Some? ==> var x := Ref(network, entry.value.id);
        x in Visible(Held(), network) && entry.value.digest == h.digest(Visible(Held(), network)[x])
    {
      hide PrimaryKeyed, IdsIndexed, ArrivalsIndexed, ClockCovers, Events, Superseded, Visible, Behind;
      ghost var x :| x in store.ids && x.network == network && Encode(x.id) == position;
      EncodeRoundTrip(x.id);
      FindIsEvents(store, x);
      IndexedIsHeld(store, x);
      PositionShown(Held(), network, cursor, x);
      if cursor != [] && !Less(cursor, position) {
        return None;
      }
      var id := Decode(position).bytes;
      if id in resolved {
        return None;
      }
      var event := Find(store, Ref(network, id)).event;
      entry := Some(Entry(id, h.digest(event)));
    }

    /** The scan of the index: at most one entry more than the limit, to see whether there are more. */
    method ReadPositions(network: Text, cursor: Text, limit: nat, resolved: set<Text>) returns (kept: seq<Text>,
        entries: seq<Entry>)
      requires Valid(store)
      requires forall id :: id in resolved <==> Ref(network, id) in Superseded(Held())
      ensures |kept| == |entries| <= limit + 1
      ensures IsPage(h, Held(), network, cursor, limit, FrontPage(kept, entries, limit))
    {
      hide PrimaryKeyed, IdsIndexed, ArrivalsIndexed, ClockCovers, Events, Superseded, Visible, Behind, IsPage,
          Collected, Filtered, FrontPage, IsFront;
      var positions := Ascending(set x | x in store.ids && x.network == network
        && (cursor == [] || !Less(Encode(x.id), cursor)) :: Encode(x.id));
      kept, entries := [], [];
      NothingKept(h, Held(), network, cursor, positions);
      var i := 0;
      while i < |positions| && |entries| <= limit
        invariant 0 <= i <= |positions| && |entries| == |kept| <= limit + 1
        invariant Collected(h, Held(), network, kept, entries)
        invariant Filtered(Held(), network, cursor, positions[..i], kept)
      {
        assert positions[i] in positions;
        FilteredStep(Held(), network, cursor, positions, i, kept);
        var entry := EntryAt(network, cursor, positions[i], resolved);
        if entry.Some? {
          CollectedOne(h, Held(), network, kept, entries, entry.value);
          entries := entries + [entry.value];
          kept := kept + [positions[i]];
        }
        i := i + 1;
      }
      FilteredAll(store, network, cursor, positions, i, kept, limit);
      PageBuilt(h, Held(), network, cursor, limit, kept, entries);
    }

    /** inventoryPage: the positions behind the cursor in key order, cut off behind the limit. The
        index key of a stored event always decodes, so the original's error for a broken one never
        arises. */
    method InventoryPage(network: Text, cursor: Text, limit: int) returns (r: Result<Page>)
      requires Valid(store)
      ensures r.Ok? <==>
        0 < limit <= 128 && network != []
          && (cursor == [] || Decode(cursor).Value?) && !Unreadable(Held(), network)
      ensures r.Ok? ==> IsPage(h, Held(), network, cursor, limit, r.value)
      ensures r.Err? ==> r.failure == InvalidRequest || r.failure == UnreadableStore
    {
      hide PrimaryKeyed, IdsIndexed, ArrivalsIndexed, ClockCovers, Events, Superseded, Unreadable, IsPage, SortById;
      if limit <= 0 || limit > MAX_PAGE_SIZE {
        return Err(InvalidRequest);
      }
      if network == [] {
        return Err(InvalidRequest);
      }
      if cursor != [] && Decode(cursor).BadInput? {
        return Err(InvalidRequest);
      }
      var resolutions := ConflictResolutions(network);
      if resolutions.Err? {
        return Err(UnreadableStore);
      }
      var kept, entries := ReadPositions(network, cursor, limit, resolutions.value);
      var done := |entries| <= limit;
      assert entries[..|entries|] == entries;
      if !done {
        entries := entries[..limit];
        kept := kept[..limit];
      }
      var next: Text := [];
      if |kept| > 0 {
        next := kept[|kept| - 1];
      }
      r := Ok(Page(SortById(entries), next, done));
    }

    /** compareInventory: what of a page is missing here, and what differs. Each difference is also
        recorded as an observed conflict; nothing else changes. */
    method CompareInventory(network: Text, entries: seq<Entry>) returns (r: Result<Compared>)
      requires Valid(store)
      modifies this
      ensures r.Ok? <==> entries == [] || ValidEntries(entries)
      ensures r.Err? ==> r.failure == InvalidRequest && State() == old(State())
      ensures r.Ok? ==>
        var conflicts := ConflictEntries(h, old(store), network, entries);
        && r.value == Compared(MissingIds(old(store), network, entries), IdsOf(conflicts))
        && store == old(store).(observed := old(store).observed + ObservationsOf(network, conflicts))
        && hlc == old(hlc)
      ensures r.Ok? ==> forall o :: o in store.observed <==>
        || o in old(store).observed
        || (&& o.network == network && Entry(o.id, o.remoteDigest) in entries
            && Ref(network, o.id) in old(Held()) && h.digest(old(Held())[Ref(network, o.id)]) != o.remoteDigest)
    {
      hide PrimaryKeyed, IdsIndexed, ArrivalsIndexed, ClockCovers, Events, ValidEntries;
      ObservationsMean(h, store, network, entries);
      CompareNothing(h, store, network);
      hide MissingIds, ConflictEntries, IdsOf, ObservationsOf;
      if entries == [] {
        return Ok(Compared([], []));
      }
      var ok := ValidateInventoryEntries(entries);
      if !ok {
        return Err(InvalidRequest);
      }
      var view := store;
      var missing: seq<Text> := [];
      var conflicts: seq<Text> := [];
      var observations: set<Observation> := {};
      var i := 0;
      while i < |entries|
        invariant 0 <= i <= |entries| && State() == old(State())
        invariant missing == MissingIds(view, network, entries[..i])
        invariant conflicts == IdsOf(ConflictEntries(h, view, network, entries[..i]))
        invariant observations == ObservationsOf(network, ConflictEntries(h, view, network, entries[..i]))
      {
        var entry := entries[i];
        FindIsEvents(view, Ref(network, entry.id));
        CompareStep(h, view, network, entries, i);
        var found := Find(view, Ref(network, entry.id));
        if found.Absent? {
          missing := missing + [entry.id];
        } else if h.digest(found.event) != entry.digest {
          conflicts := conflicts + [entry.id];
          observations := observations + {Observation(network, entry.id, entry.digest)};
        }
        i := i + 1;
      }
      assert entries[..i] == entries;
      store := store.(observed := store.observed + observations);
      r := Ok(Compared(missing, conflicts));
    }

    /** eventsByIDs */
    method EventsByIDs(network: Text, ids: seq<Text>) returns (r: Result<seq<Event>>)
      requires Valid(store)
      ensures r.Ok? <==> ValidIds(ids) && forall i :: 0 <= i < |ids| ==> Ref(network, ids[i]) in Held()
      ensures r.Ok? <==>
        && 1 <= |ids| <= 128
        && (forall i :: 0 <= i < |ids| ==> ids[i] != [] && Ref(network, ids[i]) in Held())
        && (forall i, j :: 0 <= i < j < |ids| ==> ids[i] != ids[j])
      ensures r.Ok? ==> |r.value| == |ids| && forall i :: 0 <= i < |ids| ==> r.value[i] == Held()[Ref(network, ids[i])]
      ensures r.Err? ==> r.failure == InvalidRequest || r.failure == UnknownEvent
    {
      hide PrimaryKeyed, IdsIndexed, ArrivalsIndexed, ClockCovers, Events, ValidIds;
      var ok := ValidateIDPage(ids);
      if !ok {
        return Err(InvalidRequest);
      }
      var events: seq<Event> := [];
      var i := 0;
      while i < |ids|
        invariant 0 <= i <= |ids| && |events| == i
        invariant forall j :: 0 <= j < i ==> Ref(network, ids[j]) in Held() && events[j] == Held()[Ref(network, ids[j])]
      {
        FindIsEvents(store, Ref(network, ids[i]));
        var found := Find(store, Ref(network, ids[i]));
        if found.Absent? {
          return Err(UnknownEvent);
        }
        events := events + [found.event];
        i := i + 1;
      }
      r := Ok(events);
    }
  }

  /** What a comparison records: for each differing entry the digest that was offered. */
  lemma ObservationsMean(h: Hashes, s: Store, network: Text, entries: seq<Entry>)
    requires Valid(s)
    ensures forall o :: o in ObservationsOf(network, ConflictEntries(h, s, network, entries)) <==>
      && o.network == network && Entry(o.id, o.remoteDigest) in entries
      && Ref(network, o.id) in Events(s) && h.digest(Events(s)[Ref(network, o.id)]) != o.remoteDigest
  {
    hide Valid, Events;
    ConflictEntriesExact(h, s, network, entries);
    forall o: Observation |
      o.network == network && Entry(o.id, o.remoteDigest) in ConflictEntries(h, s, network, entries)
      ensures o in ObservationsOf(network, ConflictEntries(h, s, network, entries))
    {
      var e := Entry(o.id, o.remoteDigest);
      assert Observation(network, e.id, e.digest) == o;
    }
  }

  ghost function WithObserved(n: Node, observed: set<Observation>): Node {
    n.(store := n.store.(observed := n.store.observed + observed))
  }

  lemma {:induction false} ConflictsIgnoreObserved(h: Hashes, s: Store, observed: set<Observation>, network: Text,
      entries: seq<Entry>)
    ensures ConflictEntries(h, s.(observed := observed), network, entries) == ConflictEntries(h, s, network, entries)
  {
    if entries != [] {
      ConflictsIgnoreObserved(h, s, observed, network, entries[..|entries| - 1]);
    }
  }

  /** Comparing entries that another node shows is a run of observation steps, so what the theorems on runs
      say of observed conflicts is true of those that a synchronization records. */
  lemma {:induction false} ComparisonIsRun(h: Hashes, w: World, i: nat, j: nat, network: Text, entries: seq<Entry>)
    requires Inv(h, w) && i < |w.nodes| && j < |w.nodes|
    requires Describes(h, Visible(Events(w.nodes[j].store), network), network, entries)
    ensures RunTo(h, w, w.nodes[i :=
      WithObserved(w.nodes[i], ObservationsOf(network, ConflictEntries(h, w.nodes[i].store, network, entries)))])
    decreases |entries|
  {
    hide PrimaryKeyed, IdsIndexed, ArrivalsIndexed, ClockCovers, Superseded, Inv, RunTo;
    var n := w.nodes[i];
    if entries == [] {
      CompareNothing(h, n.store, network);
      assert n.store.observed + {} == n.store.observed;
      assert w.nodes[i := WithObserved(n, {})] == w.nodes;
      NothingIsARun(h, w);
    } else {
      var front, last := entries[..|entries| - 1], entries[|entries| - 1];
      var r := Ref(network, last.id);
      ValidAt(h, w, i);
      FindIsEvents(n.store, r);
      assert entries[|entries| - 1] == last;
      if r in Events(n.store) && h.digest(Events(n.store)[r]) != last.digest {
        var step := Observe(i, j, r);
        assert Enabled(h, w, step);
        StepKeepsInv(h, w, step);
        var next := Next(h, w, step);
        assert next.nodes[i].store == n.store.(observed := next.nodes[i].store.observed);
        ComparisonIsRun(h, next, i, j, network, front);
        ConflictsIgnoreObserved(h, n.store, next.nodes[i].store.observed, network, front);
        ObservationsMore(network, ConflictEntries(h, n.store, network, front), last);
        var observed := ObservationsOf(network, ConflictEntries(h, n.store, network, front));
        assert n.store.observed + {Observation(network, last.id, last.digest)} + observed
          == n.store.observed + (observed + {Observation(network, last.id, last.digest)});
        assert next.nodes[i := WithObserved(next.nodes[i], observed)]
          == w.nodes[i := WithObserved(next.nodes[i], observed)];
        RunThenRun(h, w, step, w.nodes[i := WithObserved(next.nodes[i], observed)]);
      } else {
        var conflicts := ConflictEntries(h, n.store, network, front);
        assert conflicts + [] == conflicts;
        ComparisonIsRun(h, w, i, j, network, front);
      }
    }
  }

  lemma ValidAt(h: Hashes, w: World, i: nat)
    requires Inv(h, w) && i < |w.nodes|
    ensures Valid(w.nodes[i].store)
  {
  }

  lemma ObservationsMore(network: Text, entries: seq<Entry>, e: Entry)
    ensures ObservationsOf(network, entries + [e])
      == ObservationsOf(network, entries) + {Observation(network, e.id, e.digest)}
  {
  }

  lemma IngestMeans(n: Node, q: Request, wall: Instant, mint: Text)
    ensures var c := Ingest.IngestInternal(n, q, wall, mint);
      var ref := Ref(q.network, if q.eventId == [] then mint else q.eventId);
      ValidNode(n) && mint != [] ==>
        && (q.network != [] && q.stream != [] && ref in Events(n.store) ==>
              var e := Events(n.store)[ref];
              c == if e.stream == q.stream && e.payload == q.payload
                     && (q.occurredAt > 0 ==> e.occurredAt == q.occurredAt)
                   then Committed(n, e, false) else Rejected(DifferentContent))
        && (ref !in Events(n.store) && c.Committed? ==>
              && c.created && ref in Events(c.node.store) && Events(c.node.store)[ref] == c.event
              && c.event == Event(ref.id, q.network, q.stream, if q.occurredAt > 0 then q.occurredAt else wall,
                   c.node.hlc.physical, c.node.hlc.physical, c.node.hlc.logical, n.device, q.payload))
  {
    hide PrimaryKeyed, IdsIndexed, ArrivalsIndexed, ClockCovers, Extends;
    if ValidNode(n) && mint != [] {
      IngestInternalEffect(n, q, wall, mint);
      if q.network != [] && q.stream != [] && LocalRef(q, mint) in Events(n.store) {
        HeldIdDecides(n, q, wall, mint);
      }
    }
  }

  /** What resolving a conflict records: an event of the daemon's own on the resolution stream, under the
      random ID, that resolves exactly the given ID; from then on the node hides that ID. */
  lemma RecordedResolutionHides(n: Node, r: Ref, wall: Instant, mint: Text)
    requires ValidNode(n) && mint != [] && r.id != [] && r in Events(n.store)
    ensures var c := Ingest.IngestInternal(n, ResolutionRequest(r), wall, mint);
      c.Committed? && c.created ==>
        && c.event == Event(mint, r.network, Ascii("system:conflict_resolution"), wall, c.node.hlc.physical,
             c.node.hlc.physical, c.node.hlc.logical, n.device, Resolution(1, r.id, Ascii("preserve-both")))
        && Ref(r.network, mint) in Events(c.node.store) && Events(c.node.store)[Ref(r.network, mint)] == c.event
        && r in Superseded(Events(c.node.store))
  {
    hide PrimaryKeyed, IdsIndexed, ArrivalsIndexed, ClockCovers, Extends;
    IngestInternalEffect(n, ResolutionRequest(r), wall, mint);
    var c := Ingest.IngestInternal(n, ResolutionRequest(r), wall, mint);
    if c.Committed? && c.created {
      assert Parse(c.event) == Resolves(r.id);
      assert RefOf(c.event) in Events(c.node.store);
    }
  }

  /** Which stores a scan of the resolutions refuses: those with an event on the resolution stream of the
      network that is no resolution of version 1, strategy preserve-both and another event. */
  lemma UnreadableMeans(m: map<Ref, Event>, network: Text)
    ensures Unreadable(m, network) <==> exists x ::
      && x in m && x.network == network && m[x].stream == Ascii("system:conflict_resolution")
      && (m[x].payload.Resolution? ==>
            || m[x].payload.version != 1 || m[x].payload.strategy != Ascii("preserve-both")
            || m[x].payload.eventId in {[], m[x].id})
  {
    if x :| x in m && x.network == network && Parse(m[x]).Malformed? {
      assert m[x].stream == RESOLUTION_STREAM;
    }
  }

  /** The first resolution of an ID is the one that occurred first, among equals the one inserted first,
      and among equals the one with the least counter. */
  lemma FirstResolutionIsEarliest(m: map<Ref, Event>, r: Ref, x: Event, y: Ref)
    requires IsFirstResolution(m, r, x) && y in m && m[y].network == r.network && Parse(m[y]) == Resolves(r.id)
    requires Chronology.Timely(x) && Chronology.Timely(m[y])
    ensures x in m.Values && x.network == r.network && Parse(x) == Resolves(r.id)
    ensures x.occurredAt <= m[y].occurredAt
    ensures x.occurredAt == m[y].occurredAt ==> x.insertedAt <= m[y].insertedAt
    ensures x.occurredAt == m[y].occurredAt && x.insertedAt == m[y].insertedAt ==> x.counter <= m[y].counter
  {
    hide Chronology.ChronologicalKey, Chronology.Timely, Less;
    assert IsResolutionOf(m[y], r);
    Chronology.KeyOrderIsTimeOrder(m[y], x);
  }

  /** The node after the resolution event has been recorded, if there was none yet. */
  ghost function ResolutionRecorded(n: Node, r: Ref, wall: Instant, mint: Text): Node {
    if r in Superseded(Events(n.store)) then n
    else
      var c := Ingest.IngestInternal(n, ResolutionRequest(r), wall, mint);
      if c.Committed? then c.node else n
  }

  /****** Lemmas for the inventory page ******/

  /** Of the positions passed so far, exactly the visible ones behind the cursor were kept. */
  ghost predicate Filtered(m: map<Ref, Event>, network: Text, cursor: Text, passed: seq<Text>, kept: seq<Text>) {
    forall p :: p in kept <==> p in passed && p in Behind(m, network, cursor)
  }

  lemma NothingKept(h: Hashes, m: map<Ref, Event>, network: Text, cursor: Text, positions: seq<Text>)
    ensures Collected(h, m, network, [], []) && Filtered(m, network, cursor, positions[..0], [])
  {
  }

  lemma FilteredStep(m: map<Ref, Event>, network: Text, cursor: Text, positions: seq<Text>, i: nat, kept: seq<Text>)
    requires i < |positions| && Ascends(positions) && Filtered(m, network, cursor, positions[..i], kept)
    ensures forall q :: q in kept ==> Less(q, positions[i])
    ensures if positions[i] in Behind(m, network, cursor)
      then Filtered(m, network, cursor, positions[..i + 1], kept + [positions[i]])
      else Filtered(m, network, cursor, positions[..i + 1], kept)
  {
    hide Behind;
    assert positions[..i + 1] == positions[..i] + [positions[i]];
    forall q | q in kept ensures Less(q, positions[i]) {
      var k :| 0 <= k < i && positions[k] == q;
    }
  }

  lemma IndexedIsHeld(s: Store, x: Ref)
    requires Valid(s) && x in s.ids
    ensures x in Events(s)
  {
  }

  lemma PositionShown(m: map<Ref, Event>, network: Text, cursor: Text, x: Ref)
    requires x in m && x.network == network
    ensures Encode(x.id) in Behind(m, network, cursor) <==>
      x !in Superseded(m) && (cursor == [] || Less(cursor, Encode(x.id)))
    ensures x !in Superseded(m) ==> x in Visible(m, network) && Visible(m, network)[x] == m[x]
  {
    if Encode(x.id) in Behind(m, network, cursor) {
      var y :| y in Visible(m, network) && (cursor == [] || Less(cursor, Encode(y.id))) && Encode(y.id) == Encode(x.id);
      EncodeInjective(x.id, y.id);
    }
  }

  /** When the scan ends, what was kept is a front of the positions ahead of the cursor. */
  lemma FilteredAll(s: Store, network: Text, cursor: Text, positions: seq<Text>, i: nat, kept: seq<Text>,
      limit: nat)
    requires Valid(s) && i <= |positions| && Ascends(positions)
    requires |kept| <= limit + 1 && (|kept| <= limit ==> i == |positions|)
    requires Filtered(Events(s), network, cursor, positions[..i], kept)
    requires forall x :: x in s.ids && x.network == network && (cursor == [] || !Less(Encode(x.id), cursor)) ==>
      Encode(x.id) in positions
    ensures IsFront(Behind(Events(s), network, cursor), kept, limit)
  {
    hide PrimaryKeyed, IdsIndexed, ArrivalsIndexed, ClockCovers;
    forall p | p in Behind(Events(s), network, cursor) ensures p in positions {
      BehindIsPassed(s, network, cursor, p);
    }
    hide Behind, Events;
    forall k | 0 <= k < i ensures positions[k] in positions[..i] {
      assert positions[..i][k] == positions[k];
    }
    forall p, q | p in Behind(Events(s), network, cursor) && p !in kept && q in kept ensures Less(q, p) {
      var k :| 0 <= k < |positions| && positions[k] == p;
      var l :| 0 <= l < i && positions[l] == q;
    }
    if i == |positions| {
      assert positions[..i] == positions;
    }
  }

  lemma BehindIsPassed(s: Store, network: Text, cursor: Text, p: Text)
    requires p in Behind(Events(s), network, cursor)
    ensures exists x ::
      x in s.ids && x.network == network && (cursor == [] || !Less(Encode(x.id), cursor)) && Encode(x.id) == p
  {
    var x :| x in Visible(Events(s), network) && (cursor == [] || Less(cursor, Encode(x.id))) && p == Encode(x.id);
    if cursor != [] {
      LessAsymmetric(cursor, p);
    }
  }

  /****** Lemmas for the scans above ******/

  ghost predicate ResolvedBy(s: Store, keys: set<Key>, id: Text) {
    exists k :: k in keys && k in s.primary && Parse(s.primary[k]) == Resolves(id)
  }

  lemma ResolvedByStep(s: Store, keys: set<Key>, k: Key)
    requires k in s.primary
    ensures forall id :: ResolvedBy(s, keys + {k}, id) <==>
      ResolvedBy(s, keys, id) || Parse(s.primary[k]) == Resolves(id)
  {
    forall id
      ensures ResolvedBy(s, keys + {k}, id) <==> ResolvedBy(s, keys, id) || Parse(s.primary[k]) == Resolves(id)
    {
      if ResolvedBy(s, keys, id) {
        var j :| j in keys && j in s.primary && Parse(s.primary[j]) == Resolves(id);
        assert j in keys + {k};
      }
      if Parse(s.primary[k]) == Resolves(id) {
        assert k in keys + {k};
      }
    }
  }

  lemma StoredHeld(s: Store, k: Key)
    requires Valid(s) && k in s.primary
    ensures Ref(k.network, k.id) in Events(s) && Events(s)[Ref(k.network, k.id)] == s.primary[k]
    ensures KeyOf(s.primary[k]) == k
  {
  }

  ghost predicate IsFirstOf(s: Store, keys: set<Key>, id: Text, x: Event) {
    && (exists k :: k in keys && k in s.primary && s.primary[k] == x && Parse(x) == Resolves(id))
    && forall k :: k in keys && k in s.primary && Parse(s.primary[k]) == Resolves(id) ==> !Earlier(s.primary[k], x)
  }

  lemma FirstOfStep(s: Store, keys: set<Key>, k: Key, id: Text, found: Option<Event>)
    requires k in s.primary && Parse(s.primary[k]) == Resolves(id)
    requires if found.Some? then IsFirstOf(s, keys, id, found.value) && Earlier(s.primary[k], found.value)
      else !ResolvedBy(s, keys, id)
    ensures IsFirstOf(s, keys + {k}, id, s.primary[k])
  {
    var e := s.primary[k];
    forall l | l in keys + {k} && l in s.primary && Parse(s.primary[l]) == Resolves(id)
      ensures !Earlier(s.primary[l], e)
    {
      if l == k {
        LessIrreflexive(Chronology.ChronologicalKey(e));
      } else if found.Some? && Earlier(s.primary[l], e) {
        LessTransitive(Chronology.ChronologicalKey(s.primary[l]), Chronology.ChronologicalKey(e),
          Chronology.ChronologicalKey(found.value));
      }
    }
  }

  lemma FirstOfStays(s: Store, keys: set<Key>, k: Key, id: Text, x: Event)
    requires k in s.primary && IsFirstOf(s, keys, id, x)
    requires Parse(s.primary[k]) == Resolves(id) ==> !Earlier(s.primary[k], x)
    ensures IsFirstOf(s, keys + {k}, id, x)
  {
  }

  lemma FirstOfAll(s: Store, network: Text, id: Text, x: Event)
    requires Valid(s)
    requires IsFirstOf(s, (set k | k in s.primary && k.network == network && k.stream == RESOLUTION_STREAM), id, x)
    ensures IsFirstResolution(Events(s), Ref(network, id), x)
  {
    hide ArrivalsIndexed, ClockCovers, Earlier;
    var scan := set k | k in s.primary && k.network == network && k.stream == RESOLUTION_STREAM;
    var m := Events(s);
    var k :| k in scan && k in s.primary && s.primary[k] == x && Parse(x) == Resolves(id);
    StoredHeld(s, k);
    forall y | y in m && IsResolutionOf(m[y], Ref(network, id)) ensures !Earlier(m[y], x) {
      var l := s.ids[y];
      StoredHeld(s, l);
      assert l in scan;
    }
  }

  /** A scan of the resolution stream's prefix finds what the network's resolutions supersede. */
  lemma ScanFindsSuperseded(s: Store, network: Text, id: Text)
    requires Valid(s)
    ensures ResolvedBy(s, (set k | k in s.primary && k.network == network && k.stream == RESOLUTION_STREAM), id)
      <==> Ref(network, id) in Superseded(Events(s))
  {
    hide ArrivalsIndexed, ClockCovers;
    var scan := set k | k in s.primary && k.network == network && k.stream == RESOLUTION_STREAM;
    var m := Events(s);
    if ResolvedBy(s, scan, id) {
      var k :| k in scan && k in s.primary && Parse(s.primary[k]) == Resolves(id);
      StoredHeld(s, k);
      assert TargetOf(m[Ref(k.network, k.id)]) == Ref(network, id);
    }
    if Ref(network, id) in Superseded(m) {
      var x :| x in m && Parse(m[x]).Resolves? && TargetOf(m[x]) == Ref(network, id);
      var k := s.ids[x];
      StoredHeld(s, k);
      assert k in scan;
    }
  }

  lemma ScanFindsMalformed(s: Store, network: Text)
    requires Valid(s)
    requires forall k :: k in s.primary && k.network == network && k.stream == RESOLUTION_STREAM ==>
      !Parse(s.primary[k]).Malformed?
    ensures !Unreadable(Events(s), network)
  {
    hide ArrivalsIndexed, ClockCovers;
    forall x | x in Events(s) && x.network == network ensures !Parse(Events(s)[x]).Malformed? {
      StoredHeld(s, s.ids[x]);
    }
  }

  /****** Lemmas for reconciliation ******/

  ghost function SupersededCopyRefs(h: Hashes, m: map<Ref, Event>): set<Ref> {
    set r | r in Superseded(m) && r in m :: RefOf(Recover(h, m[r]))
  }

  /** Nothing but copies has been added, nothing else is superseded, and a store in which every
      superseded variant was copied is left alone. */
  ghost predicate Repairing(h: Hashes, history: set<Event>, before: Node, now: Node) {
    && Member(h, history, before) && Member(h, history, now)
    && Termination.Grown(Events(before.store), SupersededCopyRefs(h, Events(before.store)), Events(now.store))
    && (forall x :: x in Superseded(Events(now.store)) <==> x in Superseded(Events(before.store)))
    && (NothingToRepair(h, Events(before.store)) ==> now == before)
  }

  /** Every variant that the resolutions of these networks superseded is copied now. */
  ghost predicate AllRepaired(h: Hashes, m: map<Ref, Event>, now: map<Ref, Event>, networks: seq<Text>) {
    forall x :: x in Superseded(m) && x.network in networks ==> Copied(h, now, x)
  }

  lemma CopyIsThere(h: Hashes, history: set<Event>, before: Node, now: Node, networks: seq<Text>, x: Ref)
    requires Repairing(h, history, before, now) && AllRepaired(h, Events(before.store), Events(now.store), networks)
    requires x in Superseded(Events(before.store)) && x.network in networks && x in Events(before.store)
    ensures var original := Events(before.store)[x];
      var copy := Ref(x.network, h.recoveredId(x.network, x.id, h.digest(original)));
      copy in Events(now.store) && Events(now.store)[copy].(id := x.id) == original
  {
    hide PrimaryKeyed, IdsIndexed, ArrivalsIndexed, ClockCovers, Superseded, NothingToRepair, Closed;
    var original := Events(before.store)[x];
    assert RefOf(original) == x;
    assert x in Events(now.store) && Events(now.store)[x] == original;
    assert Copied(h, Events(now.store), x);
    assert Genuine(h, Events(now.store)[RefOf(Recover(h, original))]);
  }

  lemma RepairingStart(h: Hashes, history: set<Event>, n: Node)
    requires Member(h, history, n)
    ensures Repairing(h, history, n, n)
  {
  }

  lemma RepairingSound(h: Hashes, history: set<Event>, before: Node, now: Node)
    requires Repairing(h, history, before, now)
    ensures Valid(now.store)
    ensures forall network :: !Unreadable(Events(now.store), network)
    ensures forall x :: x in Superseded(Events(now.store)) <==> x in Superseded(Events(before.store))
  {
    hide PrimaryKeyed, IdsIndexed, ArrivalsIndexed, ClockCovers;
    forall x | x in Events(now.store) ensures !Parse(Events(now.store)[x]).Malformed? {
      assert Undisputed(h, history, Events(now.store)[x]);
    }
  }

  lemma NothingRepairedYet(h: Hashes, m: map<Ref, Event>)
    ensures AllRepaired(h, m, m, [])
  {
  }

  lemma AllRepairedStep(h: Hashes, m: map<Ref, Event>, now: map<Ref, Event>, earlier: seq<Text>, done: set<Text>,
      network: Text)
    requires AllRepaired(h, m, now, earlier)
    requires forall id :: id in done ==> Copied(h, now, Ref(network, id))
    requires forall id :: Ref(network, id) in Superseded(m) ==> id in done
    ensures AllRepaired(h, m, now, earlier + [network])
  {
    hide Superseded, Copied;
  }

  /** Copying one superseded variant, or finding that it was copied, or running out of a resource. */
  lemma RepairStep(h: Hashes, history: set<Event>, before: Node, n: Node, r: Ref, walls: nat -> Instant, at: nat)
    requires Repairing(h, history, before, n) && r in Superseded(Events(before.store))
    ensures var o := Materialize(h, n, r, walls, at, 1);
      && !o.Diverged?
      && Repairing(h, history, before, o.node)
      && (o.Failed? ==>
        (o.error.ClockFailed? || o.error.SequenceExhausted?) && !NothingToRepair(h, Events(before.store)))
      && (o.Done? ==> Copied(h, Events(o.node.store), r))
      && (forall x :: x in Superseded(Events(before.store)) && Copied(h, Events(n.store), x) ==>
        Copied(h, Events(o.node.store), x))
  {
    hide PrimaryKeyed, IdsIndexed, ArrivalsIndexed, ClockCovers, Calm, Closed, SupersededCopyRefs, Superseded, Copied,
        Materialize;
    var m := Events(before.store);
    ReconcileStep(h, history, n, m, r, walls, at);
    var o := Materialize(h, n, r, walls, at, 1);
    if o.Done? {
      forall x | x in Superseded(m) && Copied(h, Events(n.store), x) ensures Copied(h, Events(o.node.store), x) {
        CopiedStays(h, history, m, Events(n.store), Events(o.node.store), x);
      }
    }
  }

  lemma CopiedStays(h: Hashes, history: set<Event>, m: map<Ref, Event>, now: map<Ref, Event>, next: map<Ref, Event>,
      r: Ref)
    requires Calm(h, history) && Holds(m, history) && r in Superseded(m) && Copied(h, now, r)
    requires Termination.Grown(m, SupersededCopyRefs(h, m), now) && Termination.Grown(m, SupersededCopyRefs(h, m), next)
    requires forall x :: x in now ==> x in next
    ensures Copied(h, next, r)
  {
    hide Calm, SupersededCopyRefs, Superseded;
    var x := TargetIsOld(h, history, m, next, r);
  }

  lemma AllRepairedStays(h: Hashes, m: map<Ref, Event>, now: map<Ref, Event>, next: map<Ref, Event>,
      networks: seq<Text>)
    requires forall x :: x in Superseded(m) && Copied(h, now, x) ==> Copied(h, next, x)
    requires AllRepaired(h, m, now, networks)
    ensures AllRepaired(h, m, next, networks)
  {
    hide Superseded, Copied;
  }

  lemma ReconcileStep(h: Hashes, history: set<Event>, n: Node, m: map<Ref, Event>, r: Ref, walls: nat -> Instant,
      at: nat)
    requires Member(h, history, n) && Holds(m, history) && r in Superseded(m)
    requires Termination.Grown(m, SupersededCopyRefs(h, m), Events(n.store))
    ensures var o := Materialize(h, n, r, walls, at, 1);
      && !o.Diverged?
      && (o.Failed? ==> o.node == n && (o.error.ClockFailed? || o.error.SequenceExhausted?))
      && (o.Done? ==>
            && Member(h, history, o.node)
            && Termination.Grown(m, SupersededCopyRefs(h, m), Events(o.node.store))
            && (forall x :: x in Superseded(Events(o.node.store)) <==> x in Superseded(Events(n.store)))
            && (forall x :: x in Events(n.store) ==> x in Events(o.node.store))
            && Copied(h, Events(o.node.store), r)
            && (Copied(h, Events(n.store), r) ==> o.node == n))
      && (Copied(h, Events(n.store), r) ==> o.Done?)
  {
    hide PrimaryKeyed, IdsIndexed, ArrivalsIndexed, ClockCovers, Calm, Closed, Materialize, SupersededCopyRefs;
    var x := TargetIsOld(h, history, m, Events(n.store), r);
    hide Superseded, Termination.Grown;
    MaterializeIsCopy(h, history, n, x, walls, at, 1);
    var now := Events(n.store);
    if r in now {
      var copy := Recover(h, now[r]);
      hide Member;
      PlainKeepsSuperseded(now, copy);
      GrowsByCopy(h, m, now, r);
    }
  }

  lemma TargetIsOld(h: Hashes, history: set<Event>, m: map<Ref, Event>, now: map<Ref, Event>, r: Ref) returns (x: Event)
    requires Calm(h, history) && Holds(m, history) && r in Superseded(m)
    requires Termination.Grown(m, SupersededCopyRefs(h, m), now)
    ensures x in history && Parse(x).Resolves? && TargetOf(x) == r
    ensures r in now ==> r in m && now[r] == m[r]
  {
    hide Genuine, CollisionFree;
    var y :| y in m && Parse(m[y]).Resolves? && TargetOf(m[y]) == r;
    x := m[y];
    assert Undisputed(h, history, x);
    if r in SupersededCopyRefs(h, m) {
      var z :| z in Superseded(m) && z in m && r == RefOf(Recover(h, m[z]));
      CopyIsCopyRef(h, m[z]);
    }
  }

  lemma GrowsByCopy(h: Hashes, m: map<Ref, Event>, now: map<Ref, Event>, r: Ref)
    requires Termination.Grown(m, SupersededCopyRefs(h, m), now) && r in Superseded(m) && r in m && r in now
    requires now[r] == m[r]
    requires RefOf(Recover(h, m[r])) in now ==> now[RefOf(Recover(h, m[r]))] == Recover(h, m[r])
    ensures Termination.Grown(m, SupersededCopyRefs(h, m), now[RefOf(Recover(h, m[r])) := Recover(h, m[r])])
  {
    assert RefOf(Recover(h, m[r])) in SupersededCopyRefs(h, m);
  }

  lemma PlainKeepsSuperseded(m: map<Ref, Event>, e: Event)
    requires Parse(e).Plain? && (RefOf(e) in m ==> m[RefOf(e)] == e)
    ensures forall x :: x in Superseded(m[RefOf(e) := e]) <==> x in Superseded(m)
  {
    var now := m[RefOf(e) := e];
    forall x | x in Superseded(m) ensures x in Superseded(now) {
      var y :| y in m && Parse(m[y]).Resolves? && TargetOf(m[y]) == x;
      assert now[y] == m[y];
    }
  }
}
