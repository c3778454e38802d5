/** A node's event store: the primary table, the event-ID index, the arrival index with its
    sequence, and the persisted clock, all changed by one all-or-nothing transaction. */
module Store {
  import opened Wrappers
  import opened Bytes
  import opened Hlc

  /** A payload is either the strict decoding of a conflict resolution or other canonical JSON. */
  datatype Payload =
    | Resolution(version: int, eventId: Text, strategy: Text)
    | Json(text: Text)

  datatype Event = Event(
    id: Text,
    network: Text,
    stream: Text,
    occurredAt: Time,
    insertedAt: Time,
    propagatedAt: Time,
    counter: uint64,
    device: Text,
    payload: Payload)

  /** An event's identity: IDs are unique within one network. */
  datatype Ref = Ref(network: Text, id: Text)

  function RefOf(e: Event): Ref {
    Ref(e.network, e.id)
  }

  function Stamp(e: Event): Timestamp {
    Timestamp(e.insertedAt, e.counter)
  }

  /** The components of an event-v3 key. */
  datatype Key = Key(
    network: Text,
    stream: Text,
    occurredAt: Time,
    counter: uint64,
    device: Text,
    id: Text)

  function KeyOf(e: Event): Key {
    Key(e.network, e.stream, e.occurredAt, e.counter, e.device, e.id)
  }

  datatype Pending = Pending(id: Text, from: uint64, through: uint64, keys: seq<Key>, attempts: nat)

  datatype Siphon = Siphon(streams: set<Text>, cursor: uint64, pending: Option<Pending>)

  /** A digest another replica offered for an ID this replica holds with a different digest. */
  datatype Observation = Observation(network: Text, id: Text, remoteDigest: Text)

  datatype Store = Store(
    primary: map<Key, Event>,
    ids: map<Ref, Key>,
    arrivals: map<Slot, Key>,
    sequence: uint64,
    clock: Timestamp,
    siphons: map<Ref, Siphon>,
    observed: set<Observation>)

  /** A position in one network's arrival order; sequence numbers are shared by all networks. */
  datatype Slot = Slot(network: Text, sequence: uint64)

  const EMPTY: Store := Store(map[], map[], map[], 0, Timestamp(0, 0), map[], {})

  /** What normalizeReplicatedEvent demands of an envelope that is already in canonical form. */
  predicate Normalized(e: Event) {
    && e.id != [] && e.network != [] && e.stream != [] && e.device != []
    && e.occurredAt > 0 && e.insertedAt > 0 && e.propagatedAt > 0
  }

  /****** The store invariant ******/

  ghost predicate PrimaryKeyed(s: Store) {
    forall k :: k in s.primary ==> KeyOf(s.primary[k]) == k && Normalized(s.primary[k])
  }

  /** The ID index is a bijection between the (network, ID) pairs and the primary events. */
  ghost predicate IdsIndexed(s: Store) {
    && (forall p :: p in s.ids ==>
          s.ids[p] in s.primary && Ref(s.ids[p].network, s.ids[p].id) == p)
    && (forall k :: k in s.primary ==> Ref(k.network, k.id) in s.ids && s.ids[Ref(k.network, k.id)] == k)
  }

  /** The arrival index is a bijection between the sequence numbers in use and the primary events. */
  ghost predicate ArrivalsIndexed(s: Store) {
    ArrivalsSound(s) && ArrivalsDistinct(s) && ArrivalsComplete(s)
  }

  ghost predicate ArrivalsSound(s: Store) {
    forall a :: a in s.arrivals ==>
      1 <= a.sequence <= s.sequence && s.arrivals[a] in s.primary && s.arrivals[a].network == a.network
  }

  ghost predicate ArrivalsDistinct(s: Store) {
    forall a, b ::
      a in s.arrivals && b in s.arrivals && (s.arrivals[a] == s.arrivals[b] || a.sequence == b.sequence) ==> a == b
  }

  ghost predicate ArrivalsComplete(s: Store) {
    forall k {:trigger Arrived(s, k)} :: k in s.primary ==> Arrived(s, k)
  }

  ghost predicate Arrived(s: Store, k: Key) {
    exists q: uint64 :: Slot(k.network, q) in s.arrivals && s.arrivals[Slot(k.network, q)] == k
  }

  ghost predicate ClockCovers(s: Store) {
    forall k :: k in s.primary ==> AtMost(Stamp(s.primary[k]), s.clock)
  }

  ghost predicate Valid(s: Store) {
    PrimaryKeyed(s) && IdsIndexed(s) && ArrivalsIndexed(s) && ClockCovers(s)
  }

  /** Siphons and observed conflicts play no part in the invariant. */
  lemma SideTablesKeepValid(s: Store, siphons: map<Ref, Siphon>, observed: set<Observation>)
    requires Valid(s)
    ensures Valid(s.(siphons := siphons, observed := observed))
  {
    forall k | k in s.primary ensures Arrived(s.(siphons := siphons, observed := observed), k) {
      assert Arrived(s, k);
    }
  }

  /****** Reading ******/

  datatype Lookup = Absent | Found(event: Event) | Corrupt

  /** findEventByID: through the ID index to the primary table, refusing a broken index. */
  function Find(s: Store, r: Ref): Lookup {
    if r !in s.ids then Absent
    else
      var k := s.ids[r];
      if k !in s.primary then Corrupt
      else if RefOf(s.primary[k]) != r then Corrupt
      else Found(s.primary[k])
  }

  /** What a store holds: each indexed ID with its envelope. */
  ghost function Events(s: Store): map<Ref, Event> {
    map r | r in s.ids && s.ids[r] in s.primary :: s.primary[s.ids[r]]
  }

  /** In a valid store a lookup is never corrupt and agrees with what the store holds. */
  lemma FindIsEvents(s: Store, r: Ref)
    requires Valid(s)
    ensures Find(s, r) == if r in Events(s) then Found(Events(s)[r]) else Absent
    ensures r in Events(s) ==> RefOf(Events(s)[r]) == r && Normalized(Events(s)[r])
  {
    if r in s.ids {
      var k := s.ids[r];
      assert KeyOf(s.primary[k]) == k;
    }
  }

  /** Nothing stored is removed or changed, and what arrived since comes behind in arrival order. */
  ghost predicate Extends(s: Store, t: Store) {
    && (forall k :: k in s.primary ==> k in t.primary && t.primary[k] == s.primary[k])
    && (forall p :: p in s.ids ==> p in t.ids && t.ids[p] == s.ids[p])
    && (forall a :: a in s.arrivals ==> a in t.arrivals && t.arrivals[a] == s.arrivals[a])
    && (forall a :: a in t.arrivals && a !in s.arrivals ==> a.sequence > s.sequence)
    && s.sequence <= t.sequence
    && AtMost(s.clock, t.clock)
  }

  lemma ExtendsReflexive(s: Store)
    ensures Extends(s, s)
  {
  }

  lemma ExtendsTransitive(s: Store, t: Store, u: Store)
    requires Extends(s, t) && Extends(t, u)
    ensures Extends(s, u)
  {
  }

  /****** Writing ******/

  /** The writes shared by both ingest transactions; None when the arrival sequence is used up. */
  function Append(s: Store, e: Event, clock: Timestamp): Option<Store> {
    if s.sequence == MAX_UINT64 then None
    else
      var key := KeyOf(e);
      var next: uint64 := s.sequence + 1;
      Some(s.(
        primary := s.primary[key := e],
        ids := s.ids[RefOf(e) := key],
        arrivals := s.arrivals[Slot(e.network, next) := key],
        sequence := next,
        clock := clock))
  }

  lemma AppendKeepsIds(s: Store, e: Event, clock: Timestamp)
    requires IdsIndexed(s) && RefOf(e) !in s.ids && Append(s, e, clock).Some?
    ensures IdsIndexed(Append(s, e, clock).value)
    ensures KeyOf(e) !in s.primary
  {
  }

  lemma AppendAddsEvent(s: Store, e: Event, clock: Timestamp)
    requires IdsIndexed(s) && RefOf(e) !in s.ids && KeyOf(e) !in s.primary && Append(s, e, clock).Some?
    ensures Events(Append(s, e, clock).value) == Events(s)[RefOf(e) := e]
  {
    var t := Append(s, e, clock).value;
    forall r ensures r in Events(t) <==> r in Events(s) || r == RefOf(e) {
      assert r in s.ids ==> s.ids[r] in s.primary;
    }
  }

  lemma AppendKeepsArrivals(s: Store, e: Event, clock: Timestamp)
    requires ArrivalsIndexed(s) && KeyOf(e) !in s.primary && Append(s, e, clock).Some?
    ensures ArrivalsIndexed(Append(s, e, clock).value)
  {
    AppendKeepsComplete(s, e, clock);
    AppendKeepsDistinct(s, e, clock);
  }

  lemma AppendKeepsComplete(s: Store, e: Event, clock: Timestamp)
    requires ArrivalsSound(s) && ArrivalsComplete(s) && Append(s, e, clock).Some?
    ensures ArrivalsSound(Append(s, e, clock).value) && ArrivalsComplete(Append(s, e, clock).value)
  {
    var t := Append(s, e, clock).value;
    forall k | k in t.primary ensures Arrived(t, k) {
      if k == KeyOf(e) {
        assert t.arrivals[Slot(k.network, t.sequence)] == k;
      } else {
        assert Arrived(s, k);
        var q: uint64 :| Slot(k.network, q) in s.arrivals && s.arrivals[Slot(k.network, q)] == k;
        assert t.arrivals[Slot(k.network, q)] == k;
      }
    }
  }

  lemma AppendKeepsDistinct(s: Store, e: Event, clock: Timestamp)
    requires ArrivalsSound(s) && ArrivalsDistinct(s) && KeyOf(e) !in s.primary && Append(s, e, clock).Some?
    ensures ArrivalsDistinct(Append(s, e, clock).value)
  {
    hide ArrivalsComplete;
    var t := Append(s, e, clock).value;
    var last := Slot(e.network, t.sequence);
    forall a, b | a in t.arrivals && b in t.arrivals && (t.arrivals[a] == t.arrivals[b] || a.sequence == b.sequence)
      ensures a == b
    {
      if a != last && b != last {
        assert a in s.arrivals && b in s.arrivals;
      }
    }
  }

  lemma AppendKeepsEvents(s: Store, e: Event, clock: Timestamp)
    requires PrimaryKeyed(s) && ClockCovers(s) && Normalized(e)
    requires AtMost(s.clock, clock) && AtMost(Stamp(e), clock)
    requires Append(s, e, clock).Some?
    ensures PrimaryKeyed(Append(s, e, clock).value) && ClockCovers(Append(s, e, clock).value)
  {
    var t := Append(s, e, clock).value;
    forall k | k in t.primary ensures AtMost(Stamp(t.primary[k]), t.clock) {
      if k != KeyOf(e) {
        assert AtMost(Stamp(s.primary[k]), s.clock);
      }
    }
  }

  lemma AppendExtends(s: Store, e: Event, clock: Timestamp)
    requires ArrivalsIndexed(s) && RefOf(e) !in s.ids && KeyOf(e) !in s.primary
    requires AtMost(s.clock, clock) && Append(s, e, clock).Some?
    ensures Extends(s, Append(s, e, clock).value)
  {
  }

  lemma AppendKeepsValid(s: Store, e: Event, clock: Timestamp)
    requires Valid(s) && Normalized(e) && RefOf(e) !in s.ids
    requires AtMost(s.clock, clock) && AtMost(Stamp(e), clock)
    requires Append(s, e, clock).Some?
    ensures var t := Append(s, e, clock).value;
      && Valid(t) && Extends(s, t)
      && t.sequence == s.sequence + 1
      && Events(t) == Events(s)[RefOf(e) := e]
  {
    AppendKeepsIds(s, e, clock);
    AppendAddsEvent(s, e, clock);
    AppendKeepsArrivals(s, e, clock);
    AppendKeepsEvents(s, e, clock);
    AppendExtends(s, e, clock);
  }
}
