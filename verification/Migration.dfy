/** Storage schema migrations 1 to 4: what makes the store invariant hold in the first place. */
module Migration {
  import opened Wrappers
  import opened Bytes
  import opened Listing
  import opened Hlc
  import opened Timestamps
  import opened Keys
  import opened Chronology
  import opened Store

  const CURRENT_VERSION: int := 4

  /** An event as the first two schemas stored it, with its timestamps as they were written. */
  datatype LegacyEvent = LegacyEvent(
    id: Text,
    network: Text,
    stream: Text,
    occurredAt: Text,
    insertedAt: Text,
    propagatedAt: Text,
    counter: uint64,
    device: Text,
    payload: Payload)

  /** A database: its schema version, the events still under legacy keys, and the present tables. */
  datatype Db = Db(version: Option<int>, legacy: map<Text, LegacyEvent>, store: Store)

  /** normalizeTimestamp as a partial function from written to canonical times. */
  type Parser = Text -> Option<Instant>

  function StampOf(parse: Parser, e: LegacyEvent): Option<Timestamp> {
    match parse(e.insertedAt)
    case None => None
    case Some(physical) => Some(Timestamp(physical, e.counter))
  }

  /** An event with normalized timestamps; an empty propagatedAt stays empty. */
  function Normalize(parse: Parser, e: LegacyEvent): Option<Event> {
    match (parse(e.occurredAt), parse(e.insertedAt), parse(e.propagatedAt))
    case (Some(occurred), Some(inserted), propagated) =>
      if e.propagatedAt == [] then
        Some(Event(e.id, e.network, e.stream, occurred, inserted, 0, e.counter, e.device, e.payload))
      else if propagated.None? then None
      else Some(Event(e.id, e.network, e.stream, occurred, inserted, propagated.value, e.counter, e.device, e.payload))
    case _ => None
  }

  /****** The three migrations as relations ******/

  /** The greatest stamp of the events, or the unset clock if there are none. */
  ghost predicate IsLatest(parse: Parser, legacy: map<Text, LegacyEvent>, stamp: Timestamp) {
    && (forall k :: k in legacy ==> StampOf(parse, legacy[k]).Some? && AtMost(StampOf(parse, legacy[k]).value, stamp))
    && (stamp == Timestamp(0, 0) || exists k :: k in legacy && StampOf(parse, legacy[k]) == Some(stamp))
  }

  ghost predicate Clocked(parse: Parser, db: Db, db': Db) {
    IsLatest(parse, db.legacy, db'.store.clock)
      && db' == db.(version := Some(2), store := db.store.(clock := db'.store.clock))
  }

  /** No two legacy events share a network and an ID. */
  ghost predicate Collisionless(legacy: map<Text, LegacyEvent>) {
    forall k, l ::
      k in legacy && l in legacy && legacy[k].network == legacy[l].network && legacy[k].id == legacy[l].id ==> k == l
  }

  ghost predicate Parsed(parse: Parser, legacy: map<Text, LegacyEvent>) {
    forall k :: k in legacy ==> Normalize(parse, legacy[k]).Some?
  }

  ghost predicate IsMigrated(parse: Parser, legacy: map<Text, LegacyEvent>, e: Event) {
    exists k :: k in legacy && Normalize(parse, legacy[k]) == Some(e)
  }

  /** Every legacy event is stored under its own key and indexed by its ID; nothing else is. */
  ghost predicate Tables(parse: Parser, legacy: map<Text, LegacyEvent>, s: Store) {
    && (forall k :: k in s.primary <==> IsStoredKey(parse, legacy, k))
    && (forall k :: k in s.primary ==> KeyOf(s.primary[k]) == k && IsMigrated(parse, legacy, s.primary[k]))
    && (forall r :: r in s.ids <==> IsStoredRef(parse, legacy, r))
    && (forall r :: r in s.ids ==> s.ids[r] in s.primary && Ref(s.ids[r].network, s.ids[r].id) == r)
  }

  ghost predicate Indexed(parse: Parser, db: Db, db': Db) {
    && Parsed(parse, db.legacy) && Collisionless(db.legacy) && Tables(parse, db.legacy, db'.store)
    && db' == db.(version := Some(3), legacy := map[],
      store := db.store.(primary := db'.store.primary, ids := db'.store.ids))
  }

  ghost predicate IsStoredKey(parse: Parser, legacy: map<Text, LegacyEvent>, k: Key) {
    exists e :: IsMigrated(parse, legacy, e) && KeyOf(e) == k
  }

  ghost predicate IsStoredRef(parse: Parser, legacy: map<Text, LegacyEvent>, r: Ref) {
    exists e :: IsMigrated(parse, legacy, e) && RefOf(e) == r
  }

  /** The order of the arrival migration: by chronological key, then by primary key. */
  predicate Earlier(s: map<Key, Event>, a: Key, b: Key)
    requires a in s && b in s
  {
    || Less(ChronologicalKey(s[a]), ChronologicalKey(s[b]))
    || (ChronologicalKey(s[a]) == ChronologicalKey(s[b]) && Less(EventKey(a), EventKey(b)))
  }

  ghost predicate IsArrivalOrder(s: map<Key, Event>, order: seq<Key>) {
    && (forall k :: k in order <==> k in s)
    && (forall i, j :: 0 <= i < j < |order| ==> Earlier(s, order[i], order[j]))
  }

  /** Sequence numbers 1 to n, in that order. */
  ghost predicate Numbered(s: Store, order: seq<Key>) {
    && s.sequence == |order|
    && (forall a :: a in s.arrivals <==> 1 <= a.sequence <= |order| && order[a.sequence - 1].network == a.network)
    && (forall a :: a in s.arrivals ==> s.arrivals[a] == order[a.sequence - 1])
  }

  ghost predicate ArrivalsAssigned(db: Db, db': Db) {
    && (exists order :: IsArrivalOrder(db.store.primary, order) && Numbered(db'.store, order))
    && db' == db.(version := Some(4),
      store := db.store.(arrivals := db'.store.arrivals, sequence := db'.store.sequence))
  }

  /** One committed transaction of ensureStorageSchema. */
  ghost predicate Migrates(parse: Parser, db: Db, db': Db) {
    match db.version
    case None => db' == db.(version := Some(1))
    case Some(v) =>
      if v == 1 then Clocked(parse, db, db')
      else if v == 2 then Indexed(parse, db, db')
      else if v == 3 then ArrivalsAssigned(db, db')
      else false
  }

  /** What the databases of each schema look like: nothing of a later schema exists yet. */
  ghost predicate WellFormed(db: Db) {
    && (db.version.None? || db.version == Some(1) ==> db.store.clock == Timestamp(0, 0))
    && (db.version.None? || db.version == Some(1) || db.version == Some(2) ==>
      db.store.primary == map[] && db.store.ids == map[])
    && (db.version.None? || db.version == Some(1) || db.version == Some(2) || db.version == Some(3) ==>
          db.store.arrivals == map[] && db.store.sequence == 0)
    && (db.version == Some(3) || db.version == Some(4) ==> db.legacy == map[])
  }

  /****** The migrations are determined ******/

  lemma LatestUnique(parse: Parser, legacy: map<Text, LegacyEvent>, a: Timestamp, b: Timestamp)
    requires IsLatest(parse, legacy, a) && IsLatest(parse, legacy, b)
    ensures a == b
  {
    if legacy == map[] {
    } else {
      var k :| k in legacy;
      assert StampOf(parse, legacy[k]).value.physical > 0;
    }
  }

  lemma EarlierIrreflexive(s: map<Key, Event>, k: Key)
    requires k in s
    ensures !Earlier(s, k, k)
  {
    LessIrreflexive(ChronologicalKey(s[k]));
    LessIrreflexive(EventKey(k));
  }

  lemma EarlierAsymmetric(s: map<Key, Event>, a: Key, b: Key)
    requires a in s && b in s && Earlier(s, a, b)
    ensures !Earlier(s, b, a)
  {
    hide ChronologicalKey, EventKey;
    var x, y := ChronologicalKey(s[a]), ChronologicalKey(s[b]);
    if Less(x, y) {
      LessAsymmetric(x, y);
    } else {
      LessAsymmetric(EventKey(a), EventKey(b));
    }
  }

  /** A set of keys has one arrival order. */
  lemma {:induction false} ArrivalOrderUnique(s: map<Key, Event>, a: seq<Key>, b: seq<Key>)
    requires (forall k :: k in a ==> k in s) && (forall k :: k in a <==> k in b)
    requires forall i, j :: 0 <= i < j < |a| ==> Earlier(s, a[i], a[j])
    requires forall k :: k in b ==> k in s
    requires forall i, j :: 0 <= i < j < |b| ==> Earlier(s, b[i], b[j])
    ensures a == b
  {
    hide Earlier;
    assert |a| > 0 ==> a[0] in b;
    assert |b| > 0 ==> b[0] in a;
    if |a| > 0 && |b| > 0 {
      var i :| 0 <= i < |b| && b[i] == a[0];
      var j :| 0 <= j < |a| && a[j] == b[0];
      if i > 0 && j > 0 {
        EarlierAsymmetric(s, b[0], b[i]);
      }
      assert a[0] == b[0];
      forall k ensures k in a[1..] <==> k in b[1..] {
        TailHolds(s, a, b, k);
        TailHolds(s, b, a, k);
      }
      ArrivalOrderUnique(s, a[1..], b[1..]);
      assert a == [a[0]] + a[1..] && b == [b[0]] + b[1..];
    }
  }

  lemma TailHolds(s: map<Key, Event>, a: seq<Key>, b: seq<Key>, k: Key)
    requires a != [] && b != [] && a[0] == b[0] && (forall x :: x in a ==> x in b && x in s)
    requires forall i, j :: 0 <= i < j < |a| ==> Earlier(s, a[i], a[j])
    ensures k in a[1..] ==> k in b[1..]
  {
    hide Earlier;
    if k in a[1..] {
      var i :| 1 <= i < |a| && a[i] == k;
      assert k in b;
      if k == a[0] {
        EarlierIrreflexive(s, k);
      }
      assert b == [b[0]] + b[1..];
    }
  }

  lemma NumberedUnique(s: Store, t: Store, order: seq<Key>)
    requires Numbered(s, order) && Numbered(t, order)
    ensures s.arrivals == t.arrivals && s.sequence == t.sequence
  {
  }

  lemma TablesUnique(parse: Parser, legacy: map<Text, LegacyEvent>, s: Store, t: Store)
    requires Collisionless(legacy) && Tables(parse, legacy, s) && Tables(parse, legacy, t)
    ensures s.primary == t.primary && s.ids == t.ids
  {
    hide IsMigrated, IsStoredKey, IsStoredRef, Collisionless;
    forall k | k in s.primary && k in t.primary ensures s.primary[k] == t.primary[k] {
      MigratedByRef(parse, legacy, s.primary[k], t.primary[k]);
    }
    assert s.primary == t.primary;
    forall r | r in s.ids && r in t.ids ensures s.ids[r] == t.ids[r] {
      MigratedByRef(parse, legacy, s.primary[s.ids[r]], t.primary[t.ids[r]]);
    }
  }

  /** In a collision-free database an ID names one event. */
  lemma MigratedByRef(parse: Parser, legacy: map<Text, LegacyEvent>, e: Event, f: Event)
    requires Collisionless(legacy) && IsMigrated(parse, legacy, e) && IsMigrated(parse, legacy, f)
    requires RefOf(e) == RefOf(f)
    ensures e == f
  {
    var k :| k in legacy && Normalize(parse, legacy[k]) == Some(e);
    var l :| l in legacy && Normalize(parse, legacy[l]) == Some(f);
  }

  /** Each transaction of an upgrade has only one possible outcome. */
  lemma MigrationIsDetermined(parse: Parser, db: Db, a: Db, b: Db)
    requires Migrates(parse, db, a) && Migrates(parse, db, b)
    ensures a == b
  {
    if db.version == Some(1) {
      LatestUnique(parse, db.legacy, a.store.clock, b.store.clock);
    } else if db.version == Some(2) {
      TablesUnique(parse, db.legacy, a.store, b.store);
    } else if db.version == Some(3) {
      var x :| IsArrivalOrder(db.store.primary, x) && Numbered(a.store, x);
      var y :| IsArrivalOrder(db.store.primary, y) && Numbered(b.store, y);
      ArrivalOrderUnique(db.store.primary, x, y);
      NumberedUnique(a.store, b.store, x);
    }
  }

  ghost predicate Upgrades(parse: Parser, db: Db, final: Db, steps: nat)
    decreases steps
  {
    if steps == 0 then db == final && db.version == Some(CURRENT_VERSION)
    else exists next :: Migrates(parse, db, next) && Upgrades(parse, next, final, steps - 1)
  }

  /** However often an upgrade is interrupted between its transactions and started again, it reaches
      the same database. */
  lemma {:induction false} UpgradeIsDetermined(parse: Parser, db: Db, a: Db, k: nat, b: Db, l: nat)
    requires Upgrades(parse, db, a, k) && Upgrades(parse, db, b, l)
    ensures a == b && k == l
    decreases k
  {
    hide Clocked, Indexed, ArrivalsAssigned;
    if k > 0 && l > 0 {
      var x :| Migrates(parse, db, x) && Upgrades(parse, x, a, k - 1);
      var y :| Migrates(parse, db, y) && Upgrades(parse, y, b, l - 1);
      MigrationIsDetermined(parse, db, x, y);
      UpgradeIsDetermined(parse, x, a, k - 1, b, l - 1);
    }
  }

  /****** What an upgrade establishes ******/

  predicate Complete(e: LegacyEvent) {
    e.id != [] && e.network != [] && e.stream != [] && e.device != [] && e.propagatedAt != []
  }

  /** What an upgrade of the events `legacy` has reached at each schema version. */
  ghost predicate Reached(parse: Parser, legacy: map<Text, LegacyEvent>, db: Db) {
    match db.version
    case None => db.legacy == legacy && WellFormed(db)
    case Some(v) =>
      && WellFormed(db) && 1 <= v <= 4
      && (v <= 2 ==> db.legacy == legacy)
      && (v >= 3 ==> Parsed(parse, legacy) && Collisionless(legacy) && Tables(parse, legacy, db.store))
      && (v == 4 ==> exists order :: IsArrivalOrder(db.store.primary, order) && Numbered(db.store, order))
  }

  /** From the second schema on the clock is that of the latest event. */
  ghost predicate ClockReached(parse: Parser, legacy: map<Text, LegacyEvent>, db: Db) {
    db.version.Some? && db.version.value >= 2 ==> IsLatest(parse, legacy, db.store.clock)
  }

  lemma StaysWellFormed(parse: Parser, db: Db, db': Db)
    requires WellFormed(db) && Migrates(parse, db, db')
    ensures WellFormed(db')
  {
    hide Indexed, ArrivalsAssigned, Clocked;
    if db.version == Some(1) {
      ClockedShape(parse, db, db');
    } else if db.version == Some(2) {
      IndexedShape(parse, db, db');
    } else if db.version == Some(3) {
      AssignedShape(db, db');
    }
  }

  lemma ClockedShape(parse: Parser, db: Db, db': Db)
    requires Clocked(parse, db, db')
    ensures db' == db.(version := Some(2), store := db.store.(clock := db'.store.clock))
    ensures IsLatest(parse, db.legacy, db'.store.clock)
  {
  }

  lemma IndexedShape(parse: Parser, db: Db, db': Db)
    requires Indexed(parse, db, db')
    ensures db' == db.(version := Some(3), legacy := map[],
      store := db.store.(primary := db'.store.primary, ids := db'.store.ids))
    ensures Tables(parse, db.legacy, db'.store) && Parsed(parse, db.legacy) && Collisionless(db.legacy)
  {
  }

  lemma AssignedShape(db: Db, db': Db)
    requires ArrivalsAssigned(db, db')
    ensures db' == db.(version := Some(4),
      store := db.store.(arrivals := db'.store.arrivals, sequence := db'.store.sequence))
    ensures exists order :: IsArrivalOrder(db.store.primary, order) && Numbered(db'.store, order)
  {
  }

  lemma MigrationKeepsReached(parse: Parser, legacy: map<Text, LegacyEvent>, db: Db, db': Db)
    requires Reached(parse, legacy, db) && Migrates(parse, db, db')
    ensures Reached(parse, legacy, db') && (ClockReached(parse, legacy, db) ==> ClockReached(parse, legacy, db'))
  {
    hide IsLatest, Parsed, Collisionless, IsArrivalOrder, Numbered, Tables, Indexed, ArrivalsAssigned, Clocked;
    StaysWellFormed(parse, db, db');
    if db.version == Some(1) {
      ClockedShape(parse, db, db');
    } else if db.version == Some(2) {
      IndexedShape(parse, db, db');
    } else if db.version == Some(3) {
      AssignedShape(db, db');
      TablesKept(parse, legacy, db.store, db'.store);
    }
  }

  /** The tables do not depend on the arrival index. */
  lemma TablesKept(parse: Parser, legacy: map<Text, LegacyEvent>, s: Store, t: Store)
    requires Tables(parse, legacy, s) && t.primary == s.primary && t.ids == s.ids
    ensures Tables(parse, legacy, t)
  {
    hide IsMigrated, IsStoredKey, IsStoredRef;
  }

  lemma {:induction false} UpgradeReaches(parse: Parser, legacy: map<Text, LegacyEvent>, db: Db, final: Db, steps: nat)
    requires Reached(parse, legacy, db) && Upgrades(parse, db, final, steps)
    ensures Reached(parse, legacy, final) && final.version == Some(4)
    ensures ClockReached(parse, legacy, db) ==> ClockReached(parse, legacy, final)
    decreases steps
  {
    hide Reached, ClockReached, Migrates;
    if steps > 0 {
      var next :| Migrates(parse, db, next) && Upgrades(parse, next, final, steps - 1);
      MigrationKeepsReached(parse, legacy, db, next);
      UpgradeReaches(parse, legacy, next, final, steps - 1);
    }
  }

  lemma TablesIndexed(parse: Parser, legacy: map<Text, LegacyEvent>, s: Store)
    requires Collisionless(legacy) && Tables(parse, legacy, s)
    ensures IdsIndexed(s)
    ensures forall e :: IsMigrated(parse, legacy, e) <==> RefOf(e) in Events(s) && Events(s)[RefOf(e)] == e
  {
    hide IsMigrated, Collisionless;
    forall k | k in s.primary ensures Ref(k.network, k.id) in s.ids && s.ids[Ref(k.network, k.id)] == k {
      assert IsStoredRef(parse, legacy, RefOf(s.primary[k]));
      var l := s.ids[Ref(k.network, k.id)];
      MigratedByRef(parse, legacy, s.primary[k], s.primary[l]);
    }
    forall e ensures IsMigrated(parse, legacy, e) <==> RefOf(e) in Events(s) && Events(s)[RefOf(e)] == e {
      if IsMigrated(parse, legacy, e) {
        assert IsStoredRef(parse, legacy, RefOf(e));
        MigratedByRef(parse, legacy, e, s.primary[s.ids[RefOf(e)]]);
      }
    }
  }

  /** The tables hold each legacy event, field by field: every time as it parses, a missing propagation
      time as the unset one, and everything else unchanged. */
  lemma TablesHoldLegacy(parse: Parser, legacy: map<Text, LegacyEvent>, s: Store, k: Text)
    requires Parsed(parse, legacy) && Collisionless(legacy) && Tables(parse, legacy, s) && k in legacy
    ensures var l, r := legacy[k], Ref(legacy[k].network, legacy[k].id);
      && r in Events(s)
      && var e := Events(s)[r];
         && e.id == l.id && e.network == l.network && e.stream == l.stream && e.counter == l.counter
         && e.device == l.device && e.payload == l.payload
         && parse(l.occurredAt) == Some(e.occurredAt) && parse(l.insertedAt) == Some(e.insertedAt)
         && (if l.propagatedAt == [] then e.propagatedAt == 0 else parse(l.propagatedAt) == Some(e.propagatedAt))
         && s.ids[r] == Key(l.network, l.stream, e.occurredAt, l.counter, l.device, l.id)
  {
    TablesIndexed(parse, legacy, s);
    hide Tables, Collisionless, IdsIndexed, Events;
    var e := Normalize(parse, legacy[k]).value;
    assert IsMigrated(parse, legacy, e);
    hide IsMigrated, Parsed;
    StoredAtOwnKey(parse, legacy, s, RefOf(e));
  }

  ghost predicate Carries(parse: Parser, l: LegacyEvent, s: Store) {
    var r := Ref(l.network, l.id);
    && r in Events(s)
    && var e := Events(s)[r];
       && e.id == l.id && e.network == l.network && e.stream == l.stream && e.counter == l.counter
       && e.device == l.device && e.payload == l.payload
       && parse(l.occurredAt) == Some(e.occurredAt) && parse(l.insertedAt) == Some(e.insertedAt)
       && (if l.propagatedAt == [] then e.propagatedAt == 0 else parse(l.propagatedAt) == Some(e.propagatedAt))
  }

  /** The same for all legacy events at once, and nothing else is held. */
  lemma HeldAfterIndexing(parse: Parser, legacy: map<Text, LegacyEvent>, s: Store)
    requires Parsed(parse, legacy) && Collisionless(legacy) && Tables(parse, legacy, s)
    ensures forall k :: k in legacy ==> Carries(parse, legacy[k], s)
    ensures forall r :: r in Events(s) ==>
      exists k :: k in legacy && legacy[k].network == r.network && legacy[k].id == r.id
  {
    hide Tables, Collisionless, Events, Parsed;
    forall k | k in legacy ensures Carries(parse, legacy[k], s) {
      TablesHoldLegacy(parse, legacy, s, k);
    }
    forall r | r in Events(s)
      ensures exists k :: k in legacy && legacy[k].network == r.network && legacy[k].id == r.id
    {
      var k := MigratedAt(parse, legacy, s, r);
    }
  }

  /** What the ID-index migration demands: all times parse, and no two events of a network share an ID. */
  lemma MigratableMeans(parse: Parser, legacy: map<Text, LegacyEvent>)
    ensures Parsed(parse, legacy) && Collisionless(legacy) <==>
      && (forall k {:trigger legacy[k]} :: k in legacy ==>
            && parse(legacy[k].occurredAt).Some? && parse(legacy[k].insertedAt).Some?
            && (legacy[k].propagatedAt != [] ==> parse(legacy[k].propagatedAt).Some?))
      && (forall k, l :: k in legacy && l in legacy && k != l ==>
            Ref(legacy[k].network, legacy[k].id) != Ref(legacy[l].network, legacy[l].id))
  {
  }

  lemma StoredAtOwnKey(parse: Parser, legacy: map<Text, LegacyEvent>, s: Store, r: Ref)
    requires Tables(parse, legacy, s) && r in Events(s)
    ensures s.ids[r] == KeyOf(Events(s)[r]) && RefOf(Events(s)[r]) == r && IsMigrated(parse, legacy, Events(s)[r])
  {
    hide IsMigrated, IsStoredKey, IsStoredRef;
    assert s.ids[r] in s.primary;
  }

  lemma MigratedAt(parse: Parser, legacy: map<Text, LegacyEvent>, s: Store, r: Ref) returns (k: Text)
    requires Tables(parse, legacy, s) && r in Events(s)
    ensures k in legacy && legacy[k].network == r.network && legacy[k].id == r.id
  {
    hide Tables, Events;
    StoredAtOwnKey(parse, legacy, s, r);
    k :| k in legacy && Normalize(parse, legacy[k]) == Some(Events(s)[r]);
  }

  lemma NumberedIndexed(s: Store, order: seq<Key>)
    requires IsArrivalOrder(s.primary, order) && Numbered(s, order)
    ensures ArrivalsIndexed(s)
  {
    hide Earlier;
    forall i, j | 0 <= i < j < |order| ensures order[i] != order[j] {
      if order[i] == order[j] {
        EarlierIrreflexive(s.primary, order[i]);
      }
    }
    forall k | k in s.primary ensures Arrived(s, k) {
      assert k in order;
      var i :| 0 <= i < |order| && order[i] == k;
      var q: uint64 := i + 1;
      assert Slot(k.network, q) in s.arrivals;
    }
    forall a | a in s.arrivals ensures s.arrivals[a] in s.primary {
      assert order[a.sequence - 1] in order;
    }
    forall a, b | a in s.arrivals && b in s.arrivals && (s.arrivals[a] == s.arrivals[b] || a.sequence == b.sequence)
      ensures a == b
    {
      assert a.sequence == b.sequence;
    }
  }

  lemma ClockIsAbove(parse: Parser, legacy: map<Text, LegacyEvent>, s: Store)
    requires IsLatest(parse, legacy, s.clock) && Tables(parse, legacy, s)
    ensures ClockCovers(s)
  {
    hide IsLatest, IsStoredKey, IsStoredRef, IsMigrated;
    forall k | k in s.primary ensures AtMost(Stamp(s.primary[k]), s.clock) {
      MigratedBelow(parse, legacy, s.clock, s.primary[k]);
    }
  }

  lemma MigratedBelow(parse: Parser, legacy: map<Text, LegacyEvent>, clock: Timestamp, e: Event)
    requires IsLatest(parse, legacy, clock) && IsMigrated(parse, legacy, e)
    ensures AtMost(Stamp(e), clock)
  {
    var l :| l in legacy && Normalize(parse, legacy[l]) == Some(e);
    assert StampOf(parse, legacy[l]) == Some(Stamp(e));
  }

  lemma CompleteIsNormalized(parse: Parser, legacy: map<Text, LegacyEvent>, s: Store)
    requires Parsed(parse, legacy) && Collisionless(legacy) && Tables(parse, legacy, s)
    ensures PrimaryKeyed(s) <==> forall l :: l in legacy ==> Complete(legacy[l])
  {
    hide Collisionless, Tables, Parsed, PrimaryKeyed, Complete;
    if forall l :: l in legacy ==> Complete(legacy[l]) {
      CompleteThenKeyed(parse, legacy, s);
    }
    if PrimaryKeyed(s) {
      forall l | l in legacy ensures Complete(legacy[l]) {
        KeyedThenComplete(parse, legacy, s, l);
      }
    }
  }

  lemma CompleteThenKeyed(parse: Parser, legacy: map<Text, LegacyEvent>, s: Store)
    requires Tables(parse, legacy, s) && forall l :: l in legacy ==> Complete(legacy[l])
    ensures PrimaryKeyed(s)
  {
    hide Complete, Normalized, IsMigrated, IsStoredKey, IsStoredRef;
    forall k | k in s.primary ensures Normalized(s.primary[k]) {
      CompleteIsNormal(parse, legacy, s.primary[k]);
    }
  }

  lemma CompleteIsNormal(parse: Parser, legacy: map<Text, LegacyEvent>, e: Event)
    requires IsMigrated(parse, legacy, e) && forall l :: l in legacy ==> Complete(legacy[l])
    ensures Normalized(e)
  {
    var l :| l in legacy && Normalize(parse, legacy[l]) == Some(e);
  }

  lemma KeyedThenComplete(parse: Parser, legacy: map<Text, LegacyEvent>, s: Store, l: Text)
    requires Parsed(parse, legacy) && Collisionless(legacy) && Tables(parse, legacy, s) && PrimaryKeyed(s)
    requires l in legacy
    ensures Complete(legacy[l])
  {
    hide Collisionless, IsStoredRef;
    var e := Normalize(parse, legacy[l]).value;
    assert IsMigrated(parse, legacy, e);
    assert IsStoredKey(parse, legacy, KeyOf(e));
    MigratedByRef(parse, legacy, e, s.primary[KeyOf(e)]);
  }

  /** An upgraded database satisfies the store invariant if and only if every legacy event was
      complete; in particular one without propagatedAt, which the migration accepts, breaks it. The
      clock is the greatest stamp of a legacy event, or unset if there is none. */
  lemma UpgradeEstablishesInvariant(parse: Parser, db: Db, final: Db, steps: nat)
    requires WellFormed(db) && (db.version.None? || db.version == Some(1)) && Upgrades(parse, db, final, steps)
    ensures Valid(final.store) <==> forall k :: k in db.legacy ==>
      var l := db.legacy[k];
      l.id != [] && l.network != [] && l.stream != [] && l.device != [] && l.propagatedAt != []
    ensures var clock := final.store.clock;
      && (forall k {:trigger db.legacy[k]} :: k in db.legacy ==>
            var physical := parse(db.legacy[k].insertedAt);
            && physical.Some?
            && (physical.value < clock.physical
                || (physical.value == clock.physical && db.legacy[k].counter <= clock.logical)))
      && (db.legacy != map[] ==> exists k ::
            && k in db.legacy
            && parse(db.legacy[k].insertedAt) == Some(clock.physical) && db.legacy[k].counter == clock.logical)
      && (db.legacy == map[] ==> clock.physical == 0 && clock.logical == 0)
    ensures final.version == Some(4) && final.legacy == map[]
  {
    UpgradeReaches(parse, db.legacy, db, final, steps);
    LatestIsGreatest(parse, db.legacy, final.store.clock);
    hide IsLatest, Parsed, Collisionless, Tables, IsArrivalOrder, Numbered, Upgrades, PrimaryKeyed, IdsIndexed,
        ArrivalsIndexed, ClockCovers, IsMigrated, Events;
    TablesIndexed(parse, db.legacy, final.store);
    CompleteIsNormalized(parse, db.legacy, final.store);
    ClockIsAbove(parse, db.legacy, final.store);
    var order :| IsArrivalOrder(final.store.primary, order) && Numbered(final.store, order);
    NumberedIndexed(final.store, order);
  }

  lemma LatestIsGreatest(parse: Parser, legacy: map<Text, LegacyEvent>, clock: Timestamp)
    requires IsLatest(parse, legacy, clock)
    ensures forall k {:trigger legacy[k]} :: k in legacy ==>
      var physical := parse(legacy[k].insertedAt);
      && physical.Some?
      && (physical.value < clock.physical || (physical.value == clock.physical && legacy[k].counter <= clock.logical))
    ensures legacy != map[] ==> exists k ::
      k in legacy && parse(legacy[k].insertedAt) == Some(clock.physical) && legacy[k].counter == clock.logical
    ensures legacy == map[] ==> clock.physical == 0 && clock.logical == 0
  {
    if legacy != map[] {
      var k :| k in legacy;
      assert parse(legacy[k].insertedAt).Some?;
    }
  }

  /** From a database of any earlier schema with its events still under legacy keys, an upgrade ends with
      exactly those events, field by field: every time as it parses, a missing propagation time as the
      unset one, everything else unchanged, and the primary key made of the same fields. */
  lemma UpgradeKeepsEvents(parse: Parser, db: Db, final: Db, steps: nat, k: Text)
    requires WellFormed(db) && (db.version.None? || db.version == Some(1) || db.version == Some(2))
    requires Upgrades(parse, db, final, steps)
    ensures forall r :: r in Events(final.store) ==>
      exists l :: l in db.legacy && db.legacy[l].network == r.network && db.legacy[l].id == r.id
    ensures k in db.legacy ==>
      var l, r := db.legacy[k], Ref(db.legacy[k].network, db.legacy[k].id);
      && r in Events(final.store)
      && var e := Events(final.store)[r];
         && e.id == l.id && e.network == l.network && e.stream == l.stream && e.counter == l.counter
         && e.device == l.device && e.payload == l.payload
         && parse(l.occurredAt) == Some(e.occurredAt) && parse(l.insertedAt) == Some(e.insertedAt)
         && (if l.propagatedAt == [] then e.propagatedAt == 0 else parse(l.propagatedAt) == Some(e.propagatedAt))
         && final.store.ids[r] == Key(l.network, l.stream, e.occurredAt, l.counter, l.device, l.id)
  {
    hide Upgrades, Parsed, Collisionless, Tables, IsArrivalOrder, Numbered, Events, ClockReached;
    UpgradeReaches(parse, db.legacy, db, final, steps);
    if k in db.legacy {
      TablesHoldLegacy(parse, db.legacy, final.store, k);
    }
    forall r | r in Events(final.store)
      ensures exists l :: l in db.legacy && db.legacy[l].network == r.network && db.legacy[l].id == r.id
    {
      var l := MigratedAt(parse, db.legacy, final.store, r);
    }
  }

  /** The arrival migration numbers the events from 1 on without a gap, and never back in time: a later
      number has no earlier time of occurrence, among equals no earlier time of insertion, and among
      equals no smaller counter. */
  lemma ArrivalsFollowTime(parse: Parser, db: Db, db': Db, q: uint64, a: Slot, b: Slot)
    requires db.version == Some(3) && Migrates(parse, db, db')
    ensures 1 <= q <= db'.store.sequence <==> exists network :: Slot(network, q) in db'.store.arrivals
    ensures forall c :: c in db'.store.arrivals ==> db'.store.arrivals[c] in db.store.primary
    ensures
      && a in db'.store.arrivals && b in db'.store.arrivals && a.sequence < b.sequence
      && Timely(db.store.primary[db'.store.arrivals[a]]) && Timely(db.store.primary[db'.store.arrivals[b]]) ==>
        var e, f := db.store.primary[db'.store.arrivals[a]], db.store.primary[db'.store.arrivals[b]];
        && e.occurredAt <= f.occurredAt
        && (e.occurredAt == f.occurredAt ==> e.insertedAt <= f.insertedAt)
        && (e.occurredAt == f.occurredAt && e.insertedAt == f.insertedAt ==> e.counter <= f.counter)
  {
    hide Earlier, Timely;
    var order :| IsArrivalOrder(db.store.primary, order) && Numbered(db'.store, order);
    NumberedFromOne(db'.store, order, q);
    if a in db'.store.arrivals && b in db'.store.arrivals && a.sequence < b.sequence {
      NumberedInTime(db.store.primary, db'.store, order, a, b);
    }
  }

  /** So an upgraded database, whose times the canonical layout can print, has its events in the order of
      time: the later its arrival number, the later an event. */
  lemma UpgradeNumbersInTime(parse: Parser, db: Db, final: Db, steps: nat, a: Slot, b: Slot)
    requires WellFormed(db) && (db.version.None? || db.version == Some(1) || db.version == Some(2))
    requires Upgrades(parse, db, final, steps) && forall t :: parse(t).Some? ==> parse(t).value < Count(LAYOUT)
    requires a in final.store.arrivals && b in final.store.arrivals && a.sequence < b.sequence
    ensures final.store.arrivals[a] in final.store.primary && final.store.arrivals[b] in final.store.primary
    ensures
      var e, f := final.store.primary[final.store.arrivals[a]], final.store.primary[final.store.arrivals[b]];
      && e.occurredAt <= f.occurredAt
      && (e.occurredAt == f.occurredAt ==> e.insertedAt <= f.insertedAt)
      && (e.occurredAt == f.occurredAt && e.insertedAt == f.insertedAt ==> e.counter <= f.counter)
  {
    hide Upgrades, Parsed, Collisionless, IsArrivalOrder, Numbered, ClockReached, IsStoredKey, IsStoredRef, IsMigrated,
        Timely, Count;
    UpgradeReaches(parse, db.legacy, db, final, steps);
    var order :| IsArrivalOrder(final.store.primary, order) && Numbered(final.store, order);
    NumberedInTime(final.store.primary, final.store, order, a, b);
    TimesPrint(parse, db.legacy, final.store.primary[final.store.arrivals[a]]);
    TimesPrint(parse, db.legacy, final.store.primary[final.store.arrivals[b]]);
  }

  lemma NumberedFromOne(s: Store, order: seq<Key>, q: uint64)
    requires Numbered(s, order)
    ensures 1 <= q <= s.sequence <==> exists network :: Slot(network, q) in s.arrivals
  {
    if 1 <= q <= s.sequence {
      assert Slot(order[q - 1].network, q) in s.arrivals;
    }
  }

  lemma NumberedInTime(events: map<Key, Event>, s: Store, order: seq<Key>, a: Slot, b: Slot)
    requires IsArrivalOrder(events, order) && Numbered(s, order)
    requires a in s.arrivals && b in s.arrivals && a.sequence < b.sequence
    ensures s.arrivals[a] in events && s.arrivals[b] in events
    ensures Timely(events[s.arrivals[a]]) && Timely(events[s.arrivals[b]]) ==>
      var e, f := events[s.arrivals[a]], events[s.arrivals[b]];
      && e.occurredAt <= f.occurredAt
      && (e.occurredAt == f.occurredAt ==> e.insertedAt <= f.insertedAt)
      && (e.occurredAt == f.occurredAt && e.insertedAt == f.insertedAt ==> e.counter <= f.counter)
  {
    hide ChronologicalKey, EventKey, Less, Timely;
    var i, j := a.sequence - 1, b.sequence - 1;
    assert order[i] in order && order[j] in order;
    assert Earlier(events, order[i], order[j]);
    if Timely(events[order[i]]) && Timely(events[order[j]]) {
      var e, f := events[order[i]], events[order[j]];
      KeyOrderIsTimeOrder(e, f);
      KeyOrderIsTimeOrder(f, e);
      if Less(ChronologicalKey(f), ChronologicalKey(e)) {
        LessAsymmetric(ChronologicalKey(f), ChronologicalKey(e));
      }
    }
  }

  /****** The migrations as they run ******/

  datatype Upgrade = Upgraded | Interrupted | Refused | Unsupported

  ghost predicate Chain(parse: Parser, a: Db, b: Db, steps: nat)
    decreases steps
  {
    if steps == 0 then a == b else exists next :: Migrates(parse, a, next) && Chain(parse, next, b, steps - 1)
  }

  lemma {:induction false} ChainMore(parse: Parser, a: Db, b: Db, steps: nat, c: Db)
    requires Chain(parse, a, b, steps) && Migrates(parse, b, c)
    ensures Chain(parse, a, c, steps + 1)
    decreases steps
  {
    hide Migrates;
    if steps > 0 {
      var next :| Migrates(parse, a, next) && Chain(parse, next, b, steps - 1);
      ChainMore(parse, next, b, steps - 1, c);
    } else {
      assert Chain(parse, c, c, 0);
    }
  }

  lemma {:induction false} ChainUpgrades(parse: Parser, a: Db, b: Db, steps: nat, final: Db, more: nat)
    requires Chain(parse, a, b, steps) && Upgrades(parse, b, final, more)
    ensures Upgrades(parse, a, final, steps + more)
    decreases steps
  {
    hide Migrates;
    if steps > 0 {
      var next :| Migrates(parse, a, next) && Chain(parse, next, b, steps - 1);
      ChainUpgrades(parse, next, b, steps - 1, final, more);
    }
  }

  /****** The sort of the arrival migration ******/

  lemma EarlierTotal(s: map<Key, Event>, a: Key, b: Key)
    requires a in s && b in s && Printable(a) && Printable(b)
    ensures Earlier(s, a, b) || a == b || Earlier(s, b, a)
  {
    hide ChronologicalKey, EventKey, Printable, Less;
    LessTotal(ChronologicalKey(s[a]), ChronologicalKey(s[b]));
    LessTotal(EventKey(a), EventKey(b));
    EventKeyInjective(a, b);
  }

  lemma EarlierTransitive(s: map<Key, Event>, a: Key, b: Key, c: Key)
    requires a in s && b in s && c in s && Earlier(s, a, b) && Earlier(s, b, c)
    ensures Earlier(s, a, c)
  {
    hide ChronologicalKey, EventKey, Less;
    var x, y, z := ChronologicalKey(s[a]), ChronologicalKey(s[b]), ChronologicalKey(s[c]);
    if Less(x, y) && Less(y, z) {
      LessTransitive(x, y, z);
    }
    if Less(EventKey(a), EventKey(b)) && Less(EventKey(b), EventKey(c)) {
      LessTransitive(EventKey(a), EventKey(b), EventKey(c));
    }
  }

  ghost predicate InEarlierOrder(s: map<Key, Event>, order: seq<Key>) {
    && (forall k :: k in order ==> k in s && Printable(k))
    && forall i, j :: 0 <= i < j < |order| ==> order[i] in s && order[j] in s && Earlier(s, order[i], order[j])
  }

  function InsertKey(s: map<Key, Event>, k: Key, order: seq<Key>): seq<Key>
    requires k in s && forall x :: x in order ==> x in s
  {
    if order == [] || Earlier(s, k, order[0]) then [k] + order else [order[0]] + InsertKey(s, k, order[1..])
  }

  lemma {:induction false} InsertKeyOrders(s: map<Key, Event>, k: Key, order: seq<Key>)
    requires k in s && Printable(k) && k !in order && InEarlierOrder(s, order)
    ensures InEarlierOrder(s, InsertKey(s, k, order))
    ensures forall x :: x in InsertKey(s, k, order) <==> x == k || x in order
    ensures |InsertKey(s, k, order)| == |order| + 1
  {
    hide Earlier, Printable;
    if order != [] {
      assert order[0] in order;
      if Earlier(s, k, order[0]) {
        forall j | 0 <= j < |order| ensures order[j] in s && Earlier(s, k, order[j]) {
          assert order[j] in order;
          if j > 0 {
            EarlierTransitive(s, k, order[0], order[j]);
          }
        }
      } else {
        EarlierTotal(s, k, order[0]);
        InsertKeyOrders(s, k, order[1..]);
        var rest := InsertKey(s, k, order[1..]);
        assert order == [order[0]] + order[1..];
        forall j | 0 <= j < |rest| ensures rest[j] in s && Earlier(s, order[0], rest[j]) {
          assert rest[j] in rest;
          if rest[j] != k {
            assert rest[j] in order[1..];
          }
        }
      }
    }
  }

  method SortKeys(s: map<Key, Event>) returns (order: seq<Key>)
    requires forall k :: k in s ==> Printable(k)
    ensures IsArrivalOrder(s, order) && |order| == |s|
  {
    hide Earlier, Printable, InsertKey;
    order := [];
    var left := s.Keys;
    while left != {}
      invariant left <= s.Keys && InEarlierOrder(s, order) && |order| + |left| == |s|
      invariant forall k :: k in order <==> k in s && k !in left
      decreases |left|
    {
      var k :| k in left;
      InsertKeyOrders(s, k, order);
      order := InsertKey(s, k, order);
      left := left - {k};
    }
  }

  class Database {
    var version: Option<int>
    var legacy: map<Text, LegacyEvent>
    var store: Store

    ghost function State(): Db
      reads this
    {
      Db(version, legacy, store)
    }

    constructor (version: Option<int>, legacy: map<Text, LegacyEvent>, store: Store)
      ensures State() == Db(version, legacy, store)
    {
      this.version := version;
      this.legacy := legacy;
      this.store := store;
    }

    /** migrateStorageV1ToV2 */
    method MigrateV1ToV2(parse: Parser) returns (ok: bool)
      requires version == Some(1)
      modifies this
      ensures ok ==> Migrates(parse, old(State()), State())
      ensures ok <==> forall k :: k in old(legacy) ==> parse(old(legacy)[k].insertedAt).Some?
      ensures !ok ==> State() == old(State())
    {
      hide IsLatest, LatestSoFar, Indexed, ArrivalsAssigned;
      var state := Timestamp(0, 0);
      var keys := Ascending(legacy.Keys);
      NothingSeen(parse, legacy, keys);
      var i := 0;
      while i < |keys|
        invariant 0 <= i <= |keys| && State() == old(State())
        invariant LatestSoFar(parse, legacy, keys[..i], state)
      {
        assert keys[i] in keys;
        var event := legacy[keys[i]];
        var physical := parse(event.insertedAt);
        if physical.None? {
          return false;
        }
        LatestStep(parse, legacy, keys, i, state);
        if physical.value > state.physical || (physical.value == state.physical && event.counter > state.logical) {
          state := Timestamp(physical.value, event.counter);
        }
        i := i + 1;
      }
      assert keys[..i] == keys;
      LatestIsLatest(parse, legacy, keys, state);
      store := store.(clock := state);
      version := Some(2);
      ok := true;
    }

    /** migrateStorageV2ToV3: everything is checked before anything is written. */
    method MigrateV2ToV3(parse: Parser) returns (ok: bool)
      requires version == Some(2) && WellFormed(State())
      modifies this
      ensures ok ==> Migrates(parse, old(State()), State())
      ensures ok <==>
        && (forall k {:trigger old(legacy)[k]} :: k in old(legacy) ==>
              var l := old(legacy)[k];
              && parse(l.occurredAt).Some? && parse(l.insertedAt).Some?
              && (l.propagatedAt != [] ==> parse(l.propagatedAt).Some?))
        && (forall k, l :: k in old(legacy) && l in old(legacy) && k != l ==>
              Ref(old(legacy)[k].network, old(legacy)[k].id) != Ref(old(legacy)[l].network, old(legacy)[l].id))
      ensures ok ==> forall k {:trigger old(legacy)[k]} :: k in old(legacy) ==>
        var l, r := old(legacy)[k], Ref(old(legacy)[k].network, old(legacy)[k].id);
        && r in Events(store)
        && var e := Events(store)[r];
           && e.id == l.id && e.network == l.network && e.stream == l.stream && e.counter == l.counter
           && e.device == l.device && e.payload == l.payload
           && parse(l.occurredAt) == Some(e.occurredAt) && parse(l.insertedAt) == Some(e.insertedAt)
           && (if l.propagatedAt == [] then e.propagatedAt == 0 else parse(l.propagatedAt) == Some(e.propagatedAt))
      ensures ok ==> forall r :: r in Events(store) ==>
        exists k :: k in old(legacy) && old(legacy)[k].network == r.network && old(legacy)[k].id == r.id
      ensures !ok ==> State() == old(State())
      ensures ok ==> |store.primary| <= |old(legacy)|
    {
      hide Tables, Parsed, Collisionless, Clocked, ArrivalsAssigned, IsMigrated;
      var events := CheckEvents(parse, legacy);
      MigratableMeans(parse, legacy);
      if events.None? {
        return false;
      }
      var primary, ids := WriteTables(events.value);
      WrittenIsTables(parse, legacy, events.value, store.(primary := primary, ids := ids));
      store := store.(primary := primary, ids := ids);
      legacy := map[];
      version := Some(3);
      HeldAfterIndexing(parse, old(legacy), store);
      ok := true;
    }

    /** migrateStorageV3ToV4 */
    method MigrateV3ToV4(parse: Parser)
      requires version == Some(3) && WellFormed(State()) && |store.primary| <= MAX_UINT64
      requires forall k :: k in store.primary ==> Printable(k)
      modifies this
      ensures Migrates(parse, old(State()), State())
    {
      hide IsArrivalOrder, Clocked, Indexed, Printable;
      var order := SortKeys(store.primary);
      var arrivals := NumberKeys(order);
      store := store.(arrivals := arrivals, sequence := |order|);
      version := Some(4);
      assert Numbered(store, order);
    }
  }

  /** Written times print in the canonical layout, and a database holds at most 2^64-1 events. */
  ghost predicate Fit(parse: Parser, db: Db) {
    && (forall t :: parse(t).Some? ==> parse(t).value < Count(LAYOUT))
    && |db.legacy| <= MAX_UINT64 && |db.store.primary| <= MAX_UINT64
    && (db.version == Some(3) ==> forall k :: k in db.store.primary ==> Printable(k))
  }

  lemma MigratedPrints(parse: Parser, legacy: map<Text, LegacyEvent>, s: Store)
    requires Tables(parse, legacy, s) && forall t :: parse(t).Some? ==> parse(t).value < Count(LAYOUT)
    ensures forall k :: k in s.primary ==> Printable(k)
  {
    hide Count, IsMigrated;
    forall k | k in s.primary ensures Printable(k) {
      TimesPrint(parse, legacy, s.primary[k]);
    }
  }

  lemma TimesPrint(parse: Parser, legacy: map<Text, LegacyEvent>, e: Event)
    requires IsMigrated(parse, legacy, e) && forall t :: parse(t).Some? ==> parse(t).value < Count(LAYOUT)
    ensures Timely(e)
  {
    hide Count;
    var l :| l in legacy && Normalize(parse, legacy[l]) == Some(e);
    assert parse(legacy[l].occurredAt).Some? && parse(legacy[l].insertedAt).Some?;
  }

  /** One transaction of ensureStorageSchema. */
  method MigrateOnce(db: Database, parse: Parser) returns (ok: bool)
    requires WellFormed(db.State()) && Fit(parse, db.State())
    requires db.version.None? || 1 <= db.version.value < CURRENT_VERSION
    modifies db
    ensures ok ==> Migrates(parse, old(db.State()), db.State()) && WellFormed(db.State()) && Fit(parse, db.State())
    ensures ok ==> db.version == Some(if old(db.version).None? then 1 else old(db.version).value + 1)
    ensures !ok ==> db.State() == old(db.State())
    ensures !ok ==>
      !(Parsed(parse, db.legacy) && Collisionless(db.legacy)) && (db.version == Some(1) || db.version == Some(2))
  {
    hide Indexed, ArrivalsAssigned, Clocked, Tables, Parsed, Collisionless, Printable;
    ghost var before := db.State();
    ok := true;
    if db.version.None? {
      db.version := Some(1);
    } else if db.version.value == 1 {
      ok := db.MigrateV1ToV2(parse);
      if ok {
        ClockedShape(parse, before, db.State());
      } else {
        UnparsedStamp(parse, db.legacy);
      }
    } else if db.version.value == 2 {
      ok := db.MigrateV2ToV3(parse);
      MigratableMeans(parse, before.legacy);
      if ok {
        IndexedShape(parse, before, db.State());
        MigratedPrints(parse, before.legacy, db.store);
      }
    } else {
      db.MigrateV3ToV4(parse);
      AssignedShape(before, db.State());
    }
    if ok {
      StaysWellFormed(parse, before, db.State());
    }
  }

  lemma UnparsedStamp(parse: Parser, legacy: map<Text, LegacyEvent>)
    requires exists k :: k in legacy && parse(legacy[k].insertedAt).None?
    ensures !Parsed(parse, legacy)
  {
  }

  /** ensureStorageSchema, in a process that dies after `budget` transactions. Whatever it did is a
      chain of migrations; it refuses a database only if a timestamp does not parse or two events of
      one network share an ID, and then leaves it at the version it had reached. */
  method EnsureStorageSchema(db: Database, parse: Parser, budget: nat) returns (r: Upgrade, steps: nat)
    requires WellFormed(db.State()) && Fit(parse, db.State())
    modifies db
    ensures Chain(parse, old(db.State()), db.State(), steps) && steps <= budget
    ensures r == Upgraded ==> db.version == Some(4)
    ensures r == Interrupted ==> steps == budget && db.version != Some(CURRENT_VERSION)
    ensures r == Refused ==> db.version == Some(1) || db.version == Some(2)
    ensures r == Refused ==>
      || (exists k :: k in db.legacy && (
            || parse(db.legacy[k].occurredAt).None? || parse(db.legacy[k].insertedAt).None?
            || (db.legacy[k].propagatedAt != [] && parse(db.legacy[k].propagatedAt).None?)))
      || (exists k, l :: k in db.legacy && l in db.legacy && k != l
            && Ref(db.legacy[k].network, db.legacy[k].id) == Ref(db.legacy[l].network, db.legacy[l].id))
    ensures r == Unsupported <==> old(db.version).Some? && !(1 <= old(db.version).value <= 4)
    ensures r == Unsupported ==> steps == 0
  {
    hide Migrates, WellFormed, Fit, Parsed, Collisionless;
    steps := 0;
    if db.version.Some? && !(1 <= db.version.value <= CURRENT_VERSION) {
      return Unsupported, 0;
    }
    while db.version != Some(CURRENT_VERSION)
      invariant steps <= budget && Chain(parse, old(db.State()), db.State(), steps)
      invariant WellFormed(db.State()) && Fit(parse, db.State())
      invariant db.version.None? || 1 <= db.version.value <= CURRENT_VERSION
      decreases if db.version.None? then 5 else CURRENT_VERSION - db.version.value
    {
      if steps == budget {
        return Interrupted, steps;
      }
      ghost var before := db.State();
      var ok := MigrateOnce(db, parse);
      if !ok {
        MigratableMeans(parse, db.legacy);
        return Refused, steps;
      }
      ChainMore(parse, old(db.State()), before, steps, db.State());
      steps := steps + 1;
    }
    r := Upgraded;
  }

  /** A database whose upgrade was broken off anywhere reaches, when the daemon is started again, what
      it would have reached without the crash. */
  lemma CrashAndRestart(parse: Parser, db: Db, broken: Db, done: nat, restarted: Db, more: nat, direct: Db, steps: nat)
    requires Chain(parse, db, broken, done) && Upgrades(parse, broken, restarted, more)
    requires Upgrades(parse, db, direct, steps)
    ensures restarted == direct && done + more == steps
  {
    hide Migrates, Upgrades, Chain;
    ChainUpgrades(parse, db, broken, done, restarted, more);
    UpgradeIsDetermined(parse, db, restarted, done + more, direct, steps);
  }

  /** The reading half of the ID-index migration. */
  method CheckEvents(parse: Parser, legacy: map<Text, LegacyEvent>) returns (r: Option<seq<Event>>)
    ensures r.Some? <==> Parsed(parse, legacy) && Collisionless(legacy)
    ensures r.Some? ==> forall e :: IsMigrated(parse, legacy, e) <==> e in r.value
    ensures r.Some? ==> |r.value| == |legacy|
  {
    hide Parsed, Collisionless, Checked, IsMigrated, Normalize, Ascends;
    var keys := Ascending(legacy.Keys);
    NothingChecked(parse, legacy, keys);
    var indexes: set<Ref> := {};
    var events: seq<Event> := [];
    var i := 0;
    while i < |keys|
      invariant 0 <= i <= |keys|
      invariant Checked(parse, legacy, keys, i, events, indexes) && |events| == i
    {
      assert keys[i] in keys;
      CheckedStep(parse, legacy, keys, i, events, indexes);
      var event := Normalize(parse, legacy[keys[i]]);
      if event.None? {
        return None;
      }
      if RefOf(event.value) in indexes {
        return None;
      }
      indexes := indexes + {RefOf(event.value)};
      events := events + [event.value];
      i := i + 1;
    }
    CheckedAll(parse, legacy, keys, events, indexes);
    r := Some(events);
  }

  /** The writes of the arrival migration. */
  method NumberKeys(order: seq<Key>) returns (arrivals: map<Slot, Key>)
    requires |order| <= MAX_UINT64
    ensures forall a :: a in arrivals <==> 1 <= a.sequence <= |order| && order[a.sequence - 1].network == a.network
    ensures forall a :: a in arrivals ==> arrivals[a] == order[a.sequence - 1]
  {
    arrivals := map[];
    var i := 0;
    while i < |order|
      invariant 0 <= i <= |order|
      invariant forall a :: a in arrivals <==> 1 <= a.sequence <= i && order[a.sequence - 1].network == a.network
      invariant forall a :: a in arrivals ==> arrivals[a] == order[a.sequence - 1]
    {
      var sequence: uint64 := i + 1;
      arrivals := arrivals[Slot(order[i].network, sequence) := order[i]];
      i := i + 1;
    }
  }

  /** The writes of the ID-index migration. */
  method WriteTables(events: seq<Event>) returns (primary: map<Key, Event>, ids: map<Ref, Key>)
    ensures Written(events, primary, ids) && |primary| <= |events|
  {
    hide Written;
    primary, ids := map[], map[];
    NothingWritten(events);
    var i := 0;
    while i < |events|
      invariant 0 <= i <= |events|
      invariant Written(events[..i], primary, ids) && |primary| <= i
    {
      WrittenStep(events, i, primary, ids);
      primary := primary[KeyOf(events[i]) := events[i]];
      ids := ids[RefOf(events[i]) := KeyOf(events[i])];
      i := i + 1;
    }
    assert events[..i] == events;
  }

  /****** What the loops keep ******/

  /** The greatest stamp among the events visited so far. */
  ghost predicate LatestSoFar(parse: Parser, legacy: map<Text, LegacyEvent>, visited: seq<Text>, state: Timestamp) {
    && (forall k :: k in visited ==>
      k in legacy && StampOf(parse, legacy[k]).Some? && AtMost(StampOf(parse, legacy[k]).value, state))
    && (state == Timestamp(0, 0) || exists k :: k in visited && k in legacy && StampOf(parse, legacy[k]) == Some(state))
  }

  lemma NothingSeen(parse: Parser, legacy: map<Text, LegacyEvent>, keys: seq<Text>)
    ensures LatestSoFar(parse, legacy, keys[..0], Timestamp(0, 0))
  {
  }

  lemma LatestStep(parse: Parser, legacy: map<Text, LegacyEvent>, keys: seq<Text>, i: nat, state: Timestamp)
    requires i < |keys| && keys[i] in legacy && LatestSoFar(parse, legacy, keys[..i], state)
    requires StampOf(parse, legacy[keys[i]]).Some?
    ensures var stamp := StampOf(parse, legacy[keys[i]]).value;
      LatestSoFar(parse, legacy, keys[..i + 1], if Before(state, stamp) then stamp else state)
  {
    assert keys[..i + 1] == keys[..i] + [keys[i]];
    var stamp := StampOf(parse, legacy[keys[i]]).value;
    if Before(state, stamp) {
      assert keys[i] in keys[..i + 1];
    } else if state != Timestamp(0, 0) {
      var k :| k in keys[..i] && k in legacy && StampOf(parse, legacy[k]) == Some(state);
      assert k in keys[..i + 1];
    }
  }

  lemma LatestIsLatest(parse: Parser, legacy: map<Text, LegacyEvent>, keys: seq<Text>, state: Timestamp)
    requires LatestSoFar(parse, legacy, keys, state) && forall k :: k in legacy ==> k in keys
    ensures IsLatest(parse, legacy, state)
    ensures forall k :: k in legacy ==> parse(legacy[k].insertedAt).Some?
  {
    forall k | k in legacy ensures parse(legacy[k].insertedAt).Some? {
      assert k in keys && StampOf(parse, legacy[k]).Some?;
    }
  }

  /** The first i events have been normalized, and their IDs differ. */
  ghost predicate Checked(parse: Parser, legacy: map<Text, LegacyEvent>, keys: seq<Text>, i: nat, events: seq<Event>,
      seen: set<Ref>) {
    && i == |events| <= |keys|
    && (forall j :: 0 <= j < i ==>
      keys[j] in legacy && Normalize(parse, legacy[keys[j]]) == Some(events[j]) && RefOf(events[j]) in seen)
    && (forall r :: r in seen ==> exists j :: 0 <= j < i && RefOf(events[j]) == r)
    && (forall j, l :: 0 <= j < l < i ==> RefOf(events[j]) != RefOf(events[l]))
    && (forall j, l :: 0 <= j < l < |keys| ==> keys[j] != keys[l])
  }

  lemma NothingChecked(parse: Parser, legacy: map<Text, LegacyEvent>, keys: seq<Text>)
    requires Ascends(keys)
    ensures Checked(parse, legacy, keys, 0, [], {})
  {
    AscendsDistinct(keys);
  }

  /** One more event either extends the check or shows why the migration must be refused. */
  lemma CheckedStep(parse: Parser, legacy: map<Text, LegacyEvent>, keys: seq<Text>, i: nat, events: seq<Event>,
      seen: set<Ref>)
    requires i < |keys| && keys[i] in legacy && Checked(parse, legacy, keys, i, events, seen)
    ensures match Normalize(parse, legacy[keys[i]])
      case None => !Parsed(parse, legacy)
      case Some(e) =>
        if RefOf(e) in seen then !Collisionless(legacy)
        else Checked(parse, legacy, keys, i + 1, events + [e], seen + {RefOf(e)})
  {
    hide Checked, Collisionless;
    var normalized := Normalize(parse, legacy[keys[i]]);
    if normalized.Some? {
      if RefOf(normalized.value) in seen {
        RepeatedId(parse, legacy, keys, i, events, seen);
      } else {
        CheckedMore(parse, legacy, keys, i, events, seen);
      }
    }
  }

  lemma RepeatedId(parse: Parser, legacy: map<Text, LegacyEvent>, keys: seq<Text>, i: nat, events: seq<Event>,
      seen: set<Ref>)
    requires i < |keys| && keys[i] in legacy && Checked(parse, legacy, keys, i, events, seen)
    requires Normalize(parse, legacy[keys[i]]).Some? && RefOf(Normalize(parse, legacy[keys[i]]).value) in seen
    ensures !Collisionless(legacy)
  {
    var e := Normalize(parse, legacy[keys[i]]).value;
    var j :| 0 <= j < i && RefOf(events[j]) == RefOf(e);
    assert keys[j] != keys[i] && keys[j] in legacy;
    assert legacy[keys[j]].id == legacy[keys[i]].id && legacy[keys[j]].network == legacy[keys[i]].network;
  }

  lemma CheckedMore(parse: Parser, legacy: map<Text, LegacyEvent>, keys: seq<Text>, i: nat, events: seq<Event>,
      seen: set<Ref>)
    requires i < |keys| && keys[i] in legacy && Checked(parse, legacy, keys, i, events, seen)
    requires Normalize(parse, legacy[keys[i]]).Some? && RefOf(Normalize(parse, legacy[keys[i]]).value) !in seen
    ensures var e := Normalize(parse, legacy[keys[i]]).value;
      Checked(parse, legacy, keys, i + 1, events + [e], seen + {RefOf(e)})
  {
    var e := Normalize(parse, legacy[keys[i]]).value;
    hide Normalize;
    var more := events + [e];
    forall r | r in seen + {RefOf(e)} ensures exists j :: 0 <= j < i + 1 && RefOf(more[j]) == r {
      if r in seen {
        var j :| 0 <= j < i && RefOf(events[j]) == r;
        assert RefOf(more[j]) == r;
      } else {
        assert RefOf(more[i]) == r;
      }
    }
  }

  lemma CheckedAll(parse: Parser, legacy: map<Text, LegacyEvent>, keys: seq<Text>, events: seq<Event>, seen: set<Ref>)
    requires Checked(parse, legacy, keys, |keys|, events, seen) && forall k :: k in legacy ==> k in keys
    ensures Parsed(parse, legacy) && Collisionless(legacy)
    ensures forall e :: IsMigrated(parse, legacy, e) <==> e in events
  {
    hide Checked, Normalize, IsMigrated;
    forall k | k in legacy ensures Normalize(parse, legacy[k]).Some? {
      var i := CheckedAt(parse, legacy, keys, events, seen, k);
    }
    forall k, l | k in legacy && l in legacy && legacy[k].network == legacy[l].network && legacy[k].id == legacy[l].id
      ensures k == l
    {
      CheckedApart(parse, legacy, keys, events, seen, k, l);
    }
    forall e ensures IsMigrated(parse, legacy, e) <==> e in events {
      CheckedListed(parse, legacy, keys, events, seen, e);
    }
  }

  lemma CheckedAt(parse: Parser, legacy: map<Text, LegacyEvent>, keys: seq<Text>, events: seq<Event>, seen: set<Ref>,
      k: Text) returns (i: nat)
    requires Checked(parse, legacy, keys, |keys|, events, seen) && k in keys
    ensures i < |keys| == |events| && keys[i] == k && k in legacy && Normalize(parse, legacy[k]) == Some(events[i])
  {
    i :| 0 <= i < |keys| && keys[i] == k;
  }

  lemma CheckedApart(parse: Parser, legacy: map<Text, LegacyEvent>, keys: seq<Text>, events: seq<Event>,
      seen: set<Ref>, k: Text, l: Text)
    requires Checked(parse, legacy, keys, |keys|, events, seen) && k in legacy && l in legacy && k in keys && l in keys
    requires legacy[k].network == legacy[l].network && legacy[k].id == legacy[l].id
    ensures k == l
  {
    var i := CheckedAt(parse, legacy, keys, events, seen, k);
    var j := CheckedAt(parse, legacy, keys, events, seen, l);
    assert RefOf(events[i]) == RefOf(events[j]);
  }

  lemma CheckedListed(parse: Parser, legacy: map<Text, LegacyEvent>, keys: seq<Text>, events: seq<Event>,
      seen: set<Ref>, e: Event)
    requires Checked(parse, legacy, keys, |keys|, events, seen) && forall k :: k in legacy ==> k in keys
    ensures IsMigrated(parse, legacy, e) <==> e in events
  {
    hide Normalize;
    if IsMigrated(parse, legacy, e) {
      var k :| k in legacy && Normalize(parse, legacy[k]) == Some(e);
      var i := CheckedAt(parse, legacy, keys, events, seen, k);
    }
    if e in events {
      var j :| 0 <= j < |events| && events[j] == e;
      assert keys[j] in legacy;
    }
  }

  lemma NothingWritten(events: seq<Event>)
    ensures Written(events[..0], map[], map[])
  {
  }

  /** The tables after the events have been written one by one. */
  ghost predicate Written(events: seq<Event>, primary: map<Key, Event>, ids: map<Ref, Key>) {
    && (forall k :: k in primary <==> exists e :: e in events && KeyOf(e) == k)
    && (forall k :: k in primary ==> primary[k] in events && KeyOf(primary[k]) == k)
    && (forall r :: r in ids <==> exists e :: e in events && RefOf(e) == r)
    && (forall r :: r in ids ==> ids[r] in primary && Ref(ids[r].network, ids[r].id) == r)
  }

  lemma WrittenStep(events: seq<Event>, i: nat, primary: map<Key, Event>, ids: map<Ref, Key>)
    requires i < |events| && Written(events[..i], primary, ids)
    ensures Written(events[..i + 1], primary[KeyOf(events[i]) := events[i]], ids[RefOf(events[i]) := KeyOf(events[i])])
  {
    assert events[..i + 1] == events[..i] + [events[i]];
    var primary' := primary[KeyOf(events[i]) := events[i]];
    var ids' := ids[RefOf(events[i]) := KeyOf(events[i])];
    forall k ensures k in primary' <==> exists e :: e in events[..i + 1] && KeyOf(e) == k {
      if k in primary {
        var e :| e in events[..i] && KeyOf(e) == k;
        assert e in events[..i + 1];
      }
    }
    forall r ensures r in ids' <==> exists e :: e in events[..i + 1] && RefOf(e) == r {
      if r in ids {
        var e :| e in events[..i] && RefOf(e) == r;
        assert e in events[..i + 1];
      }
    }
  }

  lemma WrittenIsTables(parse: Parser, legacy: map<Text, LegacyEvent>, events: seq<Event>, s: Store)
    requires Written(events, s.primary, s.ids) && forall e :: IsMigrated(parse, legacy, e) <==> e in events
    ensures Tables(parse, legacy, s)
  {
    hide IsMigrated;
    forall k ensures IsStoredKey(parse, legacy, k) <==> k in s.primary {
      if IsStoredKey(parse, legacy, k) {
        var e :| IsMigrated(parse, legacy, e) && KeyOf(e) == k;
        assert e in events;
      }
    }
    forall r ensures IsStoredRef(parse, legacy, r) <==> r in s.ids {
      if IsStoredRef(parse, legacy, r) {
        var e :| IsMigrated(parse, legacy, e) && RefOf(e) == r;
        assert e in events;
      }
    }
  }
}
