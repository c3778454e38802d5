/** Durable siphons: cursor consumers of one network's arrival order with one persisted pending
    delivery each. */
module Siphons {
  import opened Wrappers
  import opened Bytes
  import opened WhiteSpace
  import opened Hlc
  import opened Store
  import opened Replication
  import opened Replica
  import opened DaemonObject

  const DEFAULT_BATCH: int := 25
  const MAX_BATCH: int := 100

  /** The first sequence number a scan looks at: uint64 addition wraps. */
  function Seek(cursor: uint64): uint64 {
    if cursor == MAX_UINT64 then 0 else cursor + 1
  }

  predicate StreamWanted(streams: set<Text>, k: Key) {
    streams == {} || k.stream in streams
  }

  predicate Chosen(hidden: set<Ref>, streams: set<Text>, k: Key) {
    Ref(k.network, k.id) !in hidden && StreamWanted(streams, k)
  }

  predicate Occupied(s: Store, network: Text, q: nat) {
    q <= MAX_UINT64 && Slot(network, q) in s.arrivals
  }

  /** The chosen events with sequence numbers in [from, end), in arrival order. */
  function Matching(s: Store, hidden: set<Ref>, network: Text, streams: set<Text>, from: nat, end: nat): seq<Key>
    decreases end
  {
    if end <= from then []
    else
      Matching(s, hidden, network, streams, from, end - 1) +
        if Occupied(s, network, end - 1) && Chosen(hidden, streams, s.arrivals[Slot(network, end - 1)])
        then [s.arrivals[Slot(network, end - 1)]] else []
  }

  ghost predicate NoneFrom(s: Store, network: Text, q: nat) {
    forall a :: a in s.arrivals && a.network == network ==> a.sequence < q
  }

  /** What one scan behind a cursor finds: the first events that match, as many as the limit allows,
      and the last sequence number it looked at. */
  ghost predicate IsScan(s: Store, hidden: set<Ref>, network: Text, streams: set<Text>, cursor: uint64, limit: nat,
      through: uint64, keys: seq<Key>) {
    var from := Seek(cursor);
    if NoneFrom(s, network, from) then through == cursor && keys == []
    else
      && from <= through && Occupied(s, network, through)
      && keys == Matching(s, hidden, network, streams, from, through + 1)
      && |keys| <= limit
      && (|keys| < limit ==> NoneFrom(s, network, through + 1))
      && (|keys| == limit ==> Chosen(hidden, streams, s.arrivals[Slot(network, through)]))
  }

  datatype Delivery = Delivery(id: Text, from: uint64, through: uint64, attempt: nat, events: seq<Event>)

  predicate Readable(s: Store, keys: seq<Key>) {
    forall k :: k in keys ==> k in s.primary
  }

  function EventsAt(s: Store, keys: seq<Key>): (events: seq<Event>)
    requires Readable(s, keys)
    ensures |events| == |keys| && forall i :: 0 <= i < |keys| ==> events[i] == s.primary[keys[i]]
  {
    seq(|keys|, i requires 0 <= i < |keys| => s.primary[keys[i]])
  }

  /** durableDeliveryFromDefinition */
  function DeliveryOf(s: Store, g: Siphon): Delivery
    requires g.pending.Some? ==> Readable(s, g.pending.value.keys)
  {
    match g.pending
    case None => Delivery([], g.cursor, g.cursor, 0, [])
    case Some(p) => Delivery(p.id, p.from, p.through, p.attempts, EventsAt(s, p.keys))
  }

  /** A siphon after a scan: a new pending delivery, or a cursor behind events of no interest. */
  function Advance(g: Siphon, through: uint64, keys: seq<Key>, id: Text): Siphon {
    if keys != [] then g.(pending := Some(Pending(id, g.cursor, through, keys, 1)))
    else if through > g.cursor then g.(cursor := through)
    else g
  }

  ghost predicate Updated(s: Store, r: Ref, g: Siphon, t: Store) {
    t == s.(siphons := s.siphons[r := g])
  }

  /** A poll: redelivery of what is pending, or a scan. */
  ghost predicate Polled(s: Store, r: Ref, limit: nat, id: Text, t: Store)
    requires r in s.siphons
  {
    var g := s.siphons[r];
    match g.pending
    case Some(p) => Updated(s, r, g.(pending := Some(p.(attempts := p.attempts + 1))), t)
    case None =>
      exists through, keys ::
        IsScan(s, Superseded(Events(s)), r.network, g.streams, g.cursor, limit, through, keys) &&
        Updated(s, r, Advance(g, through, keys, id), t)
  }

  ghost predicate Acknowledged(s: Store, r: Ref, id: Text, t: Store)
    requires r in s.siphons
  {
    var g := s.siphons[r];
    g.pending.Some? && g.pending.value.id == id
      && Updated(s, r, g.(cursor := g.pending.value.through, pending := None), t)
  }

  /****** The operations ******/

  lemma {:induction false} LeastNumber(s: set<uint64>) returns (least: uint64)
    requires s != {}
    ensures least in s && forall x :: x in s ==> least <= x
  {
    var first :| first in s;
    least := first;
    var rest := s - {first};
    if rest != {} {
      var other := LeastNumber(rest);
      if other < first {
        least := other;
      }
    }
    assert s == rest + {first};
  }

  /** Nothing between two numbers adds nothing. */
  lemma {:induction false} MatchingGap(s: Store, hidden: set<Ref>, network: Text, streams: set<Text>, from: nat,
      upto: nat, q: nat)
    requires from <= upto <= q && forall x :: upto <= x < q ==> !Occupied(s, network, x)
    ensures Matching(s, hidden, network, streams, from, q) == Matching(s, hidden, network, streams, from, upto)
    decreases q
  {
    if upto < q {
      MatchingGap(s, hidden, network, streams, from, upto, q - 1);
    }
  }

  /** The sequence numbers in use from `upto` on. */
  ghost predicate IsRest(s: Store, network: Text, upto: nat, left: set<uint64>) {
    forall q: uint64 :: q in left <==> q >= upto && Occupied(s, network, q)
  }

  /** Passing the least number in use. */
  lemma PassNext(s: Store, hidden: set<Ref>, network: Text, streams: set<Text>, from: nat, upto: nat,
      left: set<uint64>, q: uint64)
    requires from <= upto && IsRest(s, network, upto, left) && q in left && forall x :: x in left ==> q <= x
    ensures q >= upto && Occupied(s, network, q) && IsRest(s, network, q + 1, left - {q})
    ensures var k := s.arrivals[Slot(network, q)];
      Matching(s, hidden, network, streams, from, q + 1)
        == Matching(s, hidden, network, streams, from, upto) + if Chosen(hidden, streams, k) then [k] else []
  {
    forall x: uint64 | upto <= x < q ensures !Occupied(s, network, x) {
      assert x !in left;
    }
    MatchingGap(s, hidden, network, streams, from, upto, q);
  }

  /** Where the iterator stands next. */
  method Least(left: set<uint64>) returns (q: uint64)
    requires left != {}
    ensures q in left && forall x :: x in left ==> q <= x
  {
    ghost var least := LeastNumber(left);
    q :| q in left && forall x :: x in left ==> q <= x;
  }

  /** The scan of prepareDurableDelivery, over the arrival index in key order. */
  method Scan(d: Daemon, network: Text, streams: set<Text>, cursor: uint64, limit: nat)
    returns (r: Result<(uint64, seq<Key>)>)
    requires Valid(d.store) && limit > 0
    ensures r.Err? <==> Unreadable(d.Held(), network)
    ensures r.Err? ==> r.failure == UnreadableStore
    ensures r.Ok? ==> IsScan(d.store, Superseded(d.Held()), network, streams, cursor, limit, r.value.0, r.value.1)
    ensures r.Ok? ==> forall k :: k in r.value.1 <==>
      && ArrivedBetween(d.store, network, k, cursor, r.value.0)
      && (streams == {} || d.store.primary[k].stream in streams) && Ref(network, k.id) !in Superseded(d.Held())
    ensures r.Ok? ==> |r.value.1| <= limit
    ensures r.Ok? && |r.value.1| < limit ==>
      forall a :: a in d.store.arrivals && a.network == network ==>
        a.sequence <= r.value.0 || a.sequence <= cursor < 0xFFFF_FFFF_FFFF_FFFF
  {
    hide PrimaryKeyed, IdsIndexed, ArrivalsIndexed, ClockCovers, Superseded, Events, Unreadable, IsRest, Matching;
    var resolutions := d.ConflictResolutions(network);
    if resolutions.Err? {
      return Err(UnreadableStore);
    }
    ghost var hidden := Superseded(d.Held());
    var seek := Seek(cursor);
    var left: set<uint64> := set a | a in d.store.arrivals && a.network == network && a.sequence >= seek :: a.sequence;
    var through: uint64 := cursor;
    var keys: seq<Key> := [];
    ghost var upto: nat := seek;
    RestStart(d.store, hidden, network, streams, seek, left);
    while left != {} && |keys| < limit
      invariant seek <= upto && |keys| <= limit
      invariant IsRest(d.store, network, upto, left)
      invariant keys == Matching(d.store, hidden, network, streams, seek, upto)
      invariant if upto == seek then through == cursor
        else upto == through + 1 && seek <= through && Occupied(d.store, network, through)
      invariant |keys| == limit ==> upto > seek && Chosen(hidden, streams, d.store.arrivals[Slot(network, through)])
      decreases |left|
    {
      var q: uint64 := Least(left);
      PassNext(d.store, hidden, network, streams, seek, upto, left, q);
      left := left - {q};
      through := q;
      var key := d.store.arrivals[Slot(network, q)];
      ArrivalIsThere(d.store, Slot(network, q));
      if key.id !in resolutions.value && (streams == {} || key.stream in streams) {
        keys := keys + [key];
      }
      upto := q + 1;
    }
    assert left == {} ==> NoneFrom(d.store, network, upto) by { NoneLeft(d.store, network, upto, left); }
    ScanKeepsWanted(d.store, hidden, network, streams, cursor, limit, through, keys);
    r := Ok((through, keys));
  }

  /** k arrived behind the cursor, which stands before everything again if it is at the last number, and
      at or before `through`. */
  ghost predicate ArrivedBetween(s: Store, network: Text, k: Key, cursor: uint64, through: uint64) {
    && k in s.primary && k.network == network
    && exists q: uint64 ::
         && Slot(network, q) in s.arrivals && s.arrivals[Slot(network, q)] == k
         && q <= through && (q > cursor || cursor == 0xFFFF_FFFF_FFFF_FFFF)
  }

  /** What a scan picks, event by event: what arrived behind the cursor up to where the scan ended, on one
      of the streams asked for or on any if none was asked for, and not superseded. It takes no more
      than the limit, and ends before the last arrival only when it has as many. */
  lemma ScanKeepsWanted(s: Store, hidden: set<Ref>, network: Text, streams: set<Text>, cursor: uint64, limit: nat,
      through: uint64, keys: seq<Key>)
    requires Valid(s) && limit > 0 && IsScan(s, hidden, network, streams, cursor, limit, through, keys)
    ensures forall k :: k in keys <==>
      && ArrivedBetween(s, network, k, cursor, through)
      && (streams == {} || s.primary[k].stream in streams) && Ref(network, k.id) !in hidden
    ensures |keys| <= limit
    ensures |keys| < limit ==>
      forall a :: a in s.arrivals && a.network == network ==>
        a.sequence <= through || a.sequence <= cursor < 0xFFFF_FFFF_FFFF_FFFF
  {
    hide Matching, InOrder, ArrivalsIndexed, IdsIndexed, ClockCovers;
    MatchingSound(s, hidden, network, streams, Seek(cursor), through as nat + 1);
    forall k ensures k in keys <==>
      && ArrivedBetween(s, network, k, cursor, through)
      && (streams == {} || s.primary[k].stream in streams) && Ref(network, k.id) !in hidden
    {
      if k in keys {
        MatchingArrived(s, hidden, network, streams, Seek(cursor), through as nat + 1, k);
      } else if ArrivedBetween(s, network, k, cursor, through) {
        var q: uint64 :| Slot(network, q) in s.arrivals && s.arrivals[Slot(network, q)] == k
          && q <= through && (q > cursor || cursor == MAX_UINT64);
        assert Slot(network, q).sequence == q;
        assert ArrivedAt(s, network, k, q);
      }
    }
  }

  lemma {:induction false} MatchingArrived(s: Store, hidden: set<Ref>, network: Text, streams: set<Text>, from: nat,
      end: nat, k: Key)
    requires Valid(s) && k in Matching(s, hidden, network, streams, from, end)
    ensures exists q: uint64 :: from <= q < end && Slot(network, q) in s.arrivals && s.arrivals[Slot(network, q)] == k
    ensures k in s.primary && k.network == network
    decreases end
  {
    hide Valid, Chosen;
    if k in Matching(s, hidden, network, streams, from, end - 1) {
      MatchingArrived(s, hidden, network, streams, from, end - 1, k);
    } else {
      ArrivalIsThere(s, Slot(network, end - 1));
    }
  }

  lemma ArrivalIsThere(s: Store, a: Slot)
    requires Valid(s) && a in s.arrivals
    ensures s.arrivals[a] in s.primary && s.arrivals[a].network == a.network && 1 <= a.sequence <= s.sequence
  {
  }

  lemma RestStart(s: Store, hidden: set<Ref>, network: Text, streams: set<Text>, seek: nat, left: set<uint64>)
    requires left == set a | a in s.arrivals && a.network == network && a.sequence >= seek :: a.sequence
    ensures IsRest(s, network, seek, left) && Matching(s, hidden, network, streams, seek, seek) == []
  {
    forall q: uint64 | q >= seek && Occupied(s, network, q) ensures q in left {
      assert Slot(network, q).sequence == q;
    }
  }

  lemma NoneLeft(s: Store, network: Text, upto: nat, left: set<uint64>)
    requires IsRest(s, network, upto, left)
    ensures left == {} ==> NoneFrom(s, network, upto)
  {
    forall a | a in s.arrivals && a.network == network && left == {} ensures a.sequence < upto {
      assert Slot(network, a.sequence) == a;
      assert a.sequence !in left;
    }
  }

  const EARLIEST: Text := Ascii("earliest")
  const LATEST: Text := Ascii("latest")

  /** normalizeDurableStreams: the trimmed names, each once; an empty one is refused. */
  method NormalizeStreams(streams: seq<Text>) returns (normalized: set<Text>, ok: bool)
    ensures ok <==> [] !in Trimmed(streams)
    ensures ok ==> normalized == Trimmed(streams)
  {
    normalized := {};
    var i := 0;
    while i < |streams|
      invariant 0 <= i <= |streams| && [] !in normalized
      invariant forall s :: s in normalized <==> s in Trimmed(streams[..i])
    {
      var stream := Trim(streams[i]);
      assert streams[..i + 1] == streams[..i] + [streams[i]];
      TrimmedMore(streams[..i], streams[i]);
      TrimmedMember(streams, i);
      if stream == [] {
        return normalized, false;
      }
      normalized := normalized + {stream};
      i := i + 1;
    }
    assert streams[..i] == streams;
    ok := true;
  }

  function Trimmed(streams: seq<Text>): set<Text> {
    set s | s in streams :: Trim(s)
  }

  lemma TrimmedMore(streams: seq<Text>, stream: Text)
    ensures Trimmed(streams + [stream]) == Trimmed(streams) + {Trim(stream)}
  {
    hide Trim;
  }

  lemma TrimmedMember(streams: seq<Text>, i: nat)
    requires i < |streams|
    ensures Trim(streams[i]) in Trimmed(streams)
  {
  }

  /** createDurableSiphon: registering the same siphon again returns it as it is. */
  method CreateDurableSiphon(d: Daemon, mounted: bool, network: Text, name: Text, streams: seq<Text>, start: Text)
    returns (r: Result<Siphon>)
    modifies d
    ensures d.hlc == old(d.hlc)
    ensures var ref := Ref(network, name);
      var s := old(d.store);
      var wanted := set stream | stream in streams :: Trim(stream);
      if !mounted then r == Err(NotMounted) && d.store == s
      else if name == [] || Trim(name) != name || |name| > 128 || [] in wanted
        || start !in {[], Ascii("earliest"), Ascii("latest")} then
        r == Err(InvalidRequest) && d.store == s
      else if ref in s.siphons then
        d.store == s && r == if s.siphons[ref].streams == wanted then Ok(s.siphons[ref]) else Err(DifferentStreams)
      else
        && r == Ok(Siphon(wanted, if start == Ascii("latest") then s.sequence else 0, None))
        && d.store == s.(siphons := s.siphons[ref := r.value])
  {
    hide Trim;
    if !mounted {
      return Err(NotMounted);
    }
    if name == [] || Trim(name) != name || |name| > 128 {
      return Err(InvalidRequest);
    }
    var normalized, ok := NormalizeStreams(streams);
    if !ok {
      return Err(InvalidRequest);
    }
    var from := start;
    if from == [] {
      from := EARLIEST;
    }
    if from != EARLIEST && from != LATEST {
      return Err(InvalidRequest);
    }
    var ref := Ref(network, name);
    if ref in d.store.siphons {
      if d.store.siphons[ref].streams != normalized {
        return Err(DifferentStreams);
      }
      return Ok(d.store.siphons[ref]);
    }
    var cursor: uint64 := 0;
    if from == LATEST {
      cursor := d.store.sequence;
    }
    var definition := Siphon(normalized, cursor, None);
    d.store := d.store.(siphons := d.store.siphons[ref := definition]);
    r := Ok(definition);
  }

  /** pollDurableSiphon. Only the siphon's own entry is written, and nothing on failure. */
  method PollDurableSiphon(d: Daemon, network: Text, name: Text, requested: int, id: Text) returns (r: Result<Delivery>)
    requires Valid(d.store)
    modifies d
    ensures d.hlc == old(d.hlc)
    ensures r.Err? ==> d.store == old(d.store)
    ensures var s := old(d.store);
      var ref := Ref(network, name);
      var limit := if requested == 0 then 25 else requested;
      if limit < 1 || limit > 100 then r == Err(InvalidRequest)
      else if ref !in s.siphons then r == Err(NotRegistered)
      else if s.siphons[ref].pending.None? && Unreadable(Events(s), network) then r == Err(UnreadableStore)
      else if s.siphons[ref].pending.Some? && !Readable(s, s.siphons[ref].pending.value.keys)
        then r == Err(UnreadableStore)
      else
        && Polled(s, ref, limit, id, d.store) && ref in d.store.siphons
        && (var g := d.store.siphons[ref];
            (g.pending.Some? ==> Readable(d.store, g.pending.value.keys)) && r == Ok(DeliveryOf(d.store, g)))
  {
    hide PrimaryKeyed, IdsIndexed, ArrivalsIndexed, ClockCovers, Superseded, Events, Unreadable, IsScan, Matching;
    var limit := requested;
    if limit == 0 {
      limit := DEFAULT_BATCH;
    }
    if limit < 1 || limit > MAX_BATCH {
      return Err(InvalidRequest);
    }
    var ref := Ref(network, name);
    if ref !in d.store.siphons {
      return Err(NotRegistered);
    }
    var definition := d.store.siphons[ref];
    if definition.pending.None? {
      var scanned := Scan(d, network, definition.streams, definition.cursor, limit);
      if scanned.Err? {
        return Err(UnreadableStore);
      }
      var (through, keys) := scanned.value;
      ScanIsReadable(d.store, Superseded(d.Held()), network,
        definition.streams, definition.cursor, limit, through, keys);
      if |keys| == 0 {
        if through > definition.cursor {
          definition := definition.(cursor := through);
        }
      } else {
        definition := definition.(pending := Some(Pending(id, definition.cursor, through, keys, 1)));
      }
      assert definition == Advance(d.store.siphons[ref], through, keys, id);
    } else {
      var pending := definition.pending.value;
      definition := definition.(pending := Some(pending.(attempts := pending.attempts + 1)));
      if !Readable(d.store, pending.keys) {
        return Err(UnreadableStore);
      }
    }
    d.store := d.store.(siphons := d.store.siphons[ref := definition]);
    r := Ok(DeliveryOf(d.store, definition));
  }

  /** acknowledgeDurableSiphon: only the pending delivery's own ID moves the cursor. */
  method AcknowledgeDurableSiphon(d: Daemon, network: Text, name: Text, id: Text) returns (r: Result<Siphon>)
    modifies d
    ensures d.hlc == old(d.hlc)
    ensures r.Err? ==> d.store == old(d.store)
    ensures var s := old(d.store);
      var ref := Ref(network, name);
      if Trim(id) == [] then r == Err(InvalidRequest)
      else if ref !in s.siphons then r == Err(NotRegistered)
      else if s.siphons[ref].pending.None? then r == Err(NoPendingDelivery)
      else if s.siphons[ref].pending.value.id != id then r == Err(WrongDelivery)
      else
        && Acknowledged(s, ref, id, d.store)
        && r == Ok(s.siphons[ref].(cursor := s.siphons[ref].pending.value.through, pending := None))
        && d.store == s.(siphons := s.siphons[ref := r.value])
  {
    if Trim(id) == [] {
      return Err(InvalidRequest);
    }
    var ref := Ref(network, name);
    if ref !in d.store.siphons {
      return Err(NotRegistered);
    }
    var definition := d.store.siphons[ref];
    if definition.pending.None? {
      return Err(NoPendingDelivery);
    }
    if definition.pending.value.id != id {
      return Err(WrongDelivery);
    }
    definition := definition.(cursor := definition.pending.value.through, pending := None);
    d.store := d.store.(siphons := d.store.siphons[ref := definition]);
    r := Ok(definition);
  }

  lemma ScanIsReadable(s: Store, hidden: set<Ref>, network: Text, streams: set<Text>, cursor: uint64, limit: nat,
      through: uint64, keys: seq<Key>)
    requires Valid(s) && IsScan(s, hidden, network, streams, cursor, limit, through, keys)
    ensures Readable(s, keys)
  {
    MatchingSound(s, hidden, network, streams, Seek(cursor), through + 1);
  }

  /** The sequence number at which an event arrived. */
  ghost predicate ArrivedAt(s: Store, network: Text, k: Key, q: nat) {
    Occupied(s, network, q) && s.arrivals[Slot(network, q)] == k
  }

  lemma {:induction false} MatchingInOrder(s: Store, hidden: set<Ref>, network: Text, streams: set<Text>, from: nat,
      end: nat)
    requires Valid(s)
    ensures InOrder(s, network, Matching(s, hidden, network, streams, from, end), from, end)
    decreases end
  {
    hide Valid, Chosen, InOrder;
    if from < end {
      MatchingInOrder(s, hidden, network, streams, from, end - 1);
      var front := Matching(s, hidden, network, streams, from, end - 1);
      assert front + [] == front;
      InOrderWider(s, network, front, from, end - 1);
      if Occupied(s, network, end - 1) {
        InOrderStep(s, network, front, from, end - 1, s.arrivals[Slot(network, end - 1)]);
      }
    } else {
      NothingInOrder(s, network, from, end);
    }
  }

  lemma NothingInOrder(s: Store, network: Text, from: nat, end: nat)
    ensures InOrder(s, network, [], from, end)
  {
    assert IsPlacement(s, network, [], from, end, []);
  }

  lemma {:induction false} MatchingChosen(s: Store, hidden: set<Ref>, network: Text, streams: set<Text>, from: nat,
      end: nat, k: Key)
    requires Valid(s) && k in Matching(s, hidden, network, streams, from, end)
    ensures k in s.primary && Chosen(hidden, streams, k)
    decreases end
  {
    hide Valid, Chosen;
    if k in Matching(s, hidden, network, streams, from, end - 1) {
      MatchingChosen(s, hidden, network, streams, from, end - 1, k);
    } else {
      ArrivalIsThere(s, Slot(network, end - 1));
    }
  }

  lemma {:induction false} MatchingComplete(s: Store, hidden: set<Ref>, network: Text, streams: set<Text>, from: nat,
      end: nat, k: Key, q: nat)
    requires ArrivedAt(s, network, k, q) && from <= q < end && Chosen(hidden, streams, k)
    ensures k in Matching(s, hidden, network, streams, from, end)
    decreases end
  {
    hide Chosen;
    if q < end - 1 {
      MatchingComplete(s, hidden, network, streams, from, end - 1, k, q);
    }
  }

  /** What a scan delivers, it delivers in arrival order and each event once, and it leaves out nothing
      that is wanted. */
  lemma MatchingSound(s: Store, hidden: set<Ref>, network: Text, streams: set<Text>, from: nat, end: nat)
    requires Valid(s)
    ensures InOrder(s, network, Matching(s, hidden, network, streams, from, end), from, end)
    ensures forall k :: k in Matching(s, hidden, network, streams, from, end) ==>
      k in s.primary && Chosen(hidden, streams, k)
    ensures forall k, q: nat :: ArrivedAt(s, network, k, q) && from <= q < end && Chosen(hidden, streams, k) ==>
      k in Matching(s, hidden, network, streams, from, end)
  {
    hide Valid, Matching, Chosen, ArrivedAt, InOrder;
    MatchingInOrder(s, hidden, network, streams, from, end);
    forall k | k in Matching(s, hidden, network, streams, from, end)
      ensures k in s.primary && Chosen(hidden, streams, k)
    {
      MatchingChosen(s, hidden, network, streams, from, end, k);
    }
    forall k, q: nat | ArrivedAt(s, network, k, q) && from <= q < end && Chosen(hidden, streams, k)
      ensures k in Matching(s, hidden, network, streams, from, end)
    {
      MatchingComplete(s, hidden, network, streams, from, end, k, q);
    }
  }

  /** The keys arrived at ascending sequence numbers in [from, end). */
  ghost predicate InOrder(s: Store, network: Text, keys: seq<Key>, from: nat, end: nat) {
    exists qs: seq<nat> :: IsPlacement(s, network, keys, from, end, qs)
  }

  ghost predicate IsPlacement(s: Store, network: Text, keys: seq<Key>, from: nat, end: nat, qs: seq<nat>) {
    && |qs| == |keys|
    && (forall i :: 0 <= i < |keys| ==> from <= qs[i] < end && ArrivedAt(s, network, keys[i], qs[i]))
    && (forall i, j :: 0 <= i < j < |keys| ==> qs[i] < qs[j])
  }

  lemma InOrderStep(s: Store, network: Text, keys: seq<Key>, from: nat, end: nat, k: Key)
    requires InOrder(s, network, keys, from, end) && from <= end && ArrivedAt(s, network, k, end)
    ensures InOrder(s, network, keys + [k], from, end + 1)
  {
    hide ArrivedAt;
    var qs: seq<nat> :| IsPlacement(s, network, keys, from, end, qs);
    assert IsPlacement(s, network, keys + [k], from, end + 1, qs + [end]);
  }

  lemma InOrderWider(s: Store, network: Text, keys: seq<Key>, from: nat, end: nat)
    requires InOrder(s, network, keys, from, end)
    ensures InOrder(s, network, keys, from, end + 1)
  {
    hide ArrivedAt;
    var qs: seq<nat> :| IsPlacement(s, network, keys, from, end, qs);
    assert IsPlacement(s, network, keys, from, end + 1, qs);
  }

  /****** Runs of one siphon ******/

  /** An interval of the arrival order that the siphon has put behind its cursor: an acknowledged
      delivery, or events of no interest that a scan skipped. */
  datatype Batch = Batch(from: uint64, through: uint64, keys: seq<Key>)

  datatype Progress = Progress(store: Store, log: seq<Batch>)

  /** A transaction of anything but this siphon: ingests, receives, resolutions, other siphons, and
      restarts, which change nothing. */
  ghost predicate Elsewhere(r: Ref, s: Store, t: Store) {
    Valid(t) && Extends(s, t) && r in s.siphons && r in t.siphons && t.siphons[r] == s.siphons[r]
  }

  ghost predicate PollStep(r: Ref, p: Progress, limit: nat, id: Text, p': Progress) {
    && r in p.store.siphons && limit > 0 && Polled(p.store, r, limit, id, p'.store) && r in p'.store.siphons
    && var from, through := p.store.siphons[r].cursor, p'.store.siphons[r].cursor;
       p'.log == if through == from then p.log else p.log + [Batch(from, through, [])]
  }

  ghost predicate AckStep(r: Ref, p: Progress, id: Text, p': Progress) {
    && r in p.store.siphons && Acknowledged(p.store, r, id, p'.store)
    && var pending := p.store.siphons[r].pending.value;
       p'.log == p.log + [Batch(pending.from, pending.through, pending.keys)]
  }

  datatype Move = Other | PollOf(limit: nat, id: Text) | AckOf(id: Text)

  ghost predicate SiphonStep(r: Ref, p: Progress, e: Move, p': Progress) {
    match e
    case Other => Elsewhere(r, p.store, p'.store) && p'.log == p.log
    case PollOf(limit, id) => PollStep(r, p, limit, id, p')
    case AckOf(id) => AckStep(r, p, id, p')
  }

  /** A batch is exact at a store: it holds, in arrival order, every event of its interval that the
      siphon wants, except those that are superseded by now. */
  ghost predicate Exact(s: Store, network: Text, streams: set<Text>, b: Batch) {
    && b.from <= b.through <= s.sequence
    && InOrder(s, network, b.keys, b.from + 1, b.through + 1)
    && (forall k :: k in b.keys ==> StreamWanted(streams, k))
    && Covered(s, network, streams, b)
  }

  ghost predicate Covered(s: Store, network: Text, streams: set<Text>, b: Batch) {
    forall k, q: nat :: ArrivedAt(s, network, k, q) && b.from < q <= b.through && StreamWanted(streams, k) ==>
      k in b.keys || Ref(k.network, k.id) in Superseded(Events(s))
  }

  ghost predicate Tiles(log: seq<Batch>, start: uint64, cursor: uint64) {
    if log == [] then cursor == start
    else
      var last := log[|log| - 1];
      last.through == cursor && last.from <= last.through && Tiles(log[..|log| - 1], start, last.from)
  }

  ghost predicate AllExact(s: Store, network: Text, streams: set<Text>, log: seq<Batch>) {
    forall b {:trigger Exact(s, network, streams, b)} :: b in log ==> Exact(s, network, streams, b)
  }

  ghost predicate PendingExact(s: Store, network: Text, g: Siphon) {
    g.pending.Some? ==>
      var p := g.pending.value;
      p.from == g.cursor && p.through > p.from && p.keys != []
        && Exact(s, network, g.streams, Batch(p.from, p.through, p.keys))
  }

  /** What every step of a siphon's life keeps, as long as sequence numbers last. */
  ghost predicate SiphonInv(r: Ref, start: uint64, p: Progress) {
    && Valid(p.store) && p.store.sequence < MAX_UINT64 && r in p.store.siphons
    && var g := p.store.siphons[r];
       && g.cursor <= p.store.sequence
       && Tiles(p.log, start, g.cursor)
       && AllExact(p.store, r.network, g.streams, p.log)
       && PendingExact(p.store, r.network, g)
  }

  lemma SupersededGrows(s: Store, t: Store, x: Ref)
    requires Valid(s) && Valid(t) && Extends(s, t) && x in Superseded(Events(s))
    ensures x in Superseded(Events(t))
  {
    hide ArrivalsIndexed, ClockCovers;
    var y :| y in Events(s) && Parse(Events(s)[y]).Resolves? && TargetOf(Events(s)[y]) == x;
    assert y in Events(t) && Events(t)[y] == Events(s)[y];
  }

  /** Whatever happens elsewhere, a batch behind the arrival counter stays exact. */
  lemma ExactStays(s: Store, t: Store, network: Text, streams: set<Text>, b: Batch)
    requires Valid(s) && Valid(t) && Extends(s, t) && Exact(s, network, streams, b)
    ensures Exact(t, network, streams, b)
  {
    hide PrimaryKeyed, IdsIndexed, ArrivalsIndexed, ClockCovers, Superseded, Events;
    var qs: seq<nat> :| IsPlacement(s, network, b.keys, b.from + 1, b.through + 1, qs);
    assert IsPlacement(t, network, b.keys, b.from + 1, b.through + 1, qs);
    forall k, q: nat | ArrivedAt(t, network, k, q) && b.from < q <= b.through && StreamWanted(streams, k)
      ensures k in b.keys || Ref(k.network, k.id) in Superseded(Events(t))
    {
      assert Slot(network, q) in s.arrivals;
      assert ArrivedAt(s, network, k, q);
      if k !in b.keys {
        SupersededGrows(s, t, Ref(k.network, k.id));
      }
    }
  }

  lemma ElsewhereKeeps(r: Ref, start: uint64, p: Progress, p': Progress)
    requires SiphonInv(r, start, p) && Elsewhere(r, p.store, p'.store) && p'.log == p.log
    requires p'.store.sequence < MAX_UINT64
    ensures SiphonInv(r, start, p')
  {
    var g := p.store.siphons[r];
    assert p.store.sequence <= p'.store.sequence;
    forall b | b in p.log ensures Exact(p'.store, r.network, g.streams, b) {
      ExactStays(p.store, p'.store, r.network, g.streams, b);
    }
    if g.pending.Some? {
      var pending := g.pending.value;
      ExactStays(p.store, p'.store, r.network, g.streams, Batch(pending.from, pending.through, pending.keys));
    }
  }

  /** The siphon's own transactions change only its entry, which the batches do not depend on. */
  lemma UpdatedKeeps(s: Store, r: Ref, g: Siphon, t: Store, log: seq<Batch>, streams: set<Text>)
    requires Valid(s) && Updated(s, r, g, t) && AllExact(s, r.network, streams, log)
    ensures Valid(t) && AllExact(t, r.network, streams, log)
  {
    SideTablesKeepValid(s, t.siphons, s.observed);
    hide Valid, Exact;
    forall b | b in log ensures Exact(t, r.network, streams, b) {
      ExactUpdated(s, r, g, t, streams, b);
    }
  }

  lemma ExactUpdated(s: Store, r: Ref, g: Siphon, t: Store, streams: set<Text>, b: Batch)
    requires Updated(s, r, g, t) && Exact(s, r.network, streams, b)
    ensures Exact(t, r.network, streams, b)
  {
    assert Events(t) == Events(s);
    var qs: seq<nat> :| IsPlacement(s, r.network, b.keys, b.from + 1, b.through + 1, qs);
    assert IsPlacement(t, r.network, b.keys, b.from + 1, b.through + 1, qs);
    forall k, q: nat | ArrivedAt(t, r.network, k, q) && b.from < q <= b.through && StreamWanted(streams, k)
      ensures k in b.keys || Ref(k.network, k.id) in Superseded(Events(t))
    {
      assert ArrivedAt(s, r.network, k, q);
    }
  }

  /** A scan behind a cursor that has not reached the end of the numbers yields an exact batch. */
  lemma ScanIsExact(s: Store, network: Text, streams: set<Text>, cursor: uint64, limit: nat, through: uint64,
      keys: seq<Key>)
    requires Valid(s) && cursor <= s.sequence && cursor < MAX_UINT64 && limit > 0
    requires IsScan(s, Superseded(Events(s)), network, streams, cursor, limit, through, keys)
    ensures Exact(s, network, streams, Batch(cursor, through, keys))
    ensures keys != [] ==> through > cursor
    ensures |keys| <= limit
  {
    hide PrimaryKeyed, IdsIndexed, ArrivalsIndexed, ClockCovers, Superseded, Events;
    var hidden := Superseded(Events(s));
    var b := Batch(cursor, through, keys);
    if NoneFrom(s, network, cursor + 1) {
      assert IsPlacement(s, network, [], cursor + 1, through + 1, []);
    } else {
      MatchingSound(s, hidden, network, streams, cursor + 1, through + 1);
      ArrivalIsThere(s, Slot(network, through));
    }
  }

  lemma PollKeeps(r: Ref, start: uint64, p: Progress, limit: nat, id: Text, p': Progress)
    requires SiphonInv(r, start, p) && PollStep(r, p, limit, id, p')
    ensures SiphonInv(r, start, p')
  {
    hide Valid, Exact, IsScan;
    var s, t := p.store, p'.store;
    var g, g' := s.siphons[r], t.siphons[r];
    UpdatedKeeps(s, r, g', t, p.log, g.streams);
    if g.pending.Some? {
      var q := g.pending.value;
      ExactUpdated(s, r, g', t, g.streams, Batch(q.from, q.through, q.keys));
    } else {
      var through, keys :|
        IsScan(s, Superseded(Events(s)), r.network, g.streams, g.cursor, limit, through, keys) &&
        Updated(s, r, Advance(g, through, keys, id), t);
      ScanIsExact(s, r.network, g.streams, g.cursor, limit, through, keys);
      ExactUpdated(s, r, g', t, g.streams, Batch(g.cursor, through, keys));
      assert Exact(t, r.network, g.streams, Batch(g.cursor, through, keys));
      ExactIsBehind(t, r.network, g.streams, Batch(g.cursor, through, keys));
      if g'.cursor != g.cursor {
        assert p'.log[..|p'.log| - 1] == p.log;
      }
    }
  }

  lemma ExactIsBehind(s: Store, network: Text, streams: set<Text>, b: Batch)
    requires Exact(s, network, streams, b)
    ensures b.from <= b.through <= s.sequence
  {
  }

  lemma AckKeeps(r: Ref, start: uint64, p: Progress, id: Text, p': Progress)
    requires SiphonInv(r, start, p) && AckStep(r, p, id, p')
    ensures SiphonInv(r, start, p')
  {
    hide Valid, Exact;
    var s, t := p.store, p'.store;
    var g, g' := s.siphons[r], t.siphons[r];
    var q := g.pending.value;
    var b := Batch(q.from, q.through, q.keys);
    UpdatedKeeps(s, r, g', t, p.log, g.streams);
    ExactUpdated(s, r, g', t, g.streams, b);
    ExactIsBehind(t, r.network, g.streams, b);
    assert p'.log[..|p'.log| - 1] == p.log;
  }

  lemma SiphonStepKeeps(r: Ref, start: uint64, p: Progress, e: Move, p': Progress)
    requires SiphonInv(r, start, p) && SiphonStep(r, p, e, p') && p'.store.sequence < MAX_UINT64
    ensures SiphonInv(r, start, p')
    ensures p'.store.siphons[r].streams == p.store.siphons[r].streams
  {
    match e
    case Other => ElsewhereKeeps(r, start, p, p');
    case PollOf(limit, id) => PollKeeps(r, start, p, limit, id, p');
    case AckOf(id) => AckKeeps(r, start, p, id, p');
  }

  ghost predicate SiphonRun(r: Ref, states: seq<Progress>, moves: seq<Move>) {
    && |states| == |moves| + 1
    && (forall k {:trigger moves[k]} :: 0 <= k < |moves| ==> SiphonStep(r, states[k], moves[k], states[k + 1]))
    && (forall k :: 0 <= k < |states| ==> states[k].store.sequence < MAX_UINT64)
  }

  /** A siphon just created has delivered nothing. */
  lemma CreatedInv(r: Ref, s: Store, streams: set<Text>, start: uint64, t: Store)
    requires Valid(s) && s.sequence < MAX_UINT64 && start <= s.sequence
    requires Updated(s, r, Siphon(streams, start, None), t)
    ensures SiphonInv(r, start, Progress(t, []))
  {
    SideTablesKeepValid(s, t.siphons, s.observed);
  }

  /** Over every run, the batches tile the arrival order from the starting cursor to the present
      one, and each is exact. */
  lemma {:induction false} DeliveryTilesTheLog(r: Ref, start: uint64, states: seq<Progress>, moves: seq<Move>)
    requires SiphonRun(r, states, moves) && SiphonInv(r, start, states[0])
    ensures SiphonInv(r, start, states[|moves|])
    ensures states[|moves|].store.siphons[r].streams == states[0].store.siphons[r].streams
    decreases |moves|
  {
    hide SiphonInv, SiphonStep;
    if moves != [] {
      var last := |moves| - 1;
      assert SiphonRun(r, states[..last + 1], moves[..last]) by {
        forall k | 0 <= k < last
          ensures SiphonStep(r, states[..last + 1][k], moves[..last][k], states[..last + 1][k + 1])
        {
          assert SiphonStep(r, states[k], moves[k], states[k + 1]);
        }
      }
      DeliveryTilesTheLog(r, start, states[..last + 1], moves[..last]);
      assert SiphonStep(r, states[last], moves[last], states[last + 1]);
      SiphonStepKeeps(r, start, states[last], moves[last], states[last + 1]);
    }
  }

  /****** Each event once ******/

  ghost predicate DeliveredAt(log: seq<Batch>, i: nat, j: nat, k: Key) {
    i < |log| && j < |log[i].keys| && log[i].keys[j] == k
  }

  lemma {:induction false} TilesOrdered(log: seq<Batch>, start: uint64, cursor: uint64)
    requires Tiles(log, start, cursor)
    ensures start <= cursor
    ensures forall i :: 0 <= i < |log| ==> start <= log[i].from <= log[i].through <= cursor
    ensures forall i, j :: 0 <= i < j < |log| ==> log[i].through <= log[j].from
    decreases |log|
  {
    if log != [] {
      var front := log[..|log| - 1];
      TilesOrdered(front, start, log[|log| - 1].from);
      assert forall i :: 0 <= i < |front| ==> front[i] == log[i];
    }
  }

  lemma {:induction false} TilesCover(log: seq<Batch>, start: uint64, cursor: uint64, q: nat) returns (i: nat)
    requires Tiles(log, start, cursor) && start < q <= cursor
    ensures i < |log| && log[i].from < q <= log[i].through
    decreases |log|
  {
    if log != [] {
      var last := log[|log| - 1];
      if last.from < q {
        i := |log| - 1;
      } else {
        i := TilesCover(log[..|log| - 1], start, last.from, q);
      }
    }
  }

  /** Where a delivered event arrived, and that the order within a batch is that of arrival. */
  lemma BatchPlace(s: Store, network: Text, streams: set<Text>, b: Batch, j: nat, q: nat)
    requires Valid(s) && Exact(s, network, streams, b) && j < |b.keys| && ArrivedAt(s, network, b.keys[j], q)
    ensures b.from < q <= b.through && StreamWanted(streams, b.keys[j])
    ensures forall l, x: nat :: 0 <= l < |b.keys| && ArrivedAt(s, network, b.keys[l], x) ==> (l < j <==> x < q)
  {
    var qs: seq<nat> :| IsPlacement(s, network, b.keys, b.from + 1, b.through + 1, qs);
    hide PrimaryKeyed, IdsIndexed, ArrivalsSound, ArrivalsComplete, ClockCovers, Covered;
    assert Slot(network, q) == Slot(network, qs[j]);
    forall l, x: nat | 0 <= l < |b.keys| && ArrivedAt(s, network, b.keys[l], x) ensures l < j <==> x < q {
      assert Slot(network, x) == Slot(network, qs[l]);
    }
  }

  /** Deliveries follow the arrival order, within and across batches, so no event is in two places. */
  lemma DeliveryFollowsArrival(r: Ref, start: uint64, p: Progress, i: nat, j: nat, k: Key, q: nat, i': nat, j': nat,
      k': Key, q': nat)
    requires SiphonInv(r, start, p)
    requires DeliveredAt(p.log, i, j, k) && ArrivedAt(p.store, r.network, k, q)
    requires DeliveredAt(p.log, i', j', k') && ArrivedAt(p.store, r.network, k', q')
    ensures start < q <= p.store.siphons[r].cursor
    ensures i < i' || (i == i' && j < j') <==> q < q'
    ensures k == k' ==> i == i' && j == j'
  {
    hide Exact, Valid, ArrivedAt;
    var g := p.store.siphons[r];
    TilesOrdered(p.log, start, g.cursor);
    assert Exact(p.store, r.network, g.streams, p.log[i]) && Exact(p.store, r.network, g.streams, p.log[i']);
    BatchPlace(p.store, r.network, g.streams, p.log[i], j, q);
    BatchPlace(p.store, r.network, g.streams, p.log[i'], j', q');
    if k == k' {
      OneArrival(p.store, r.network, k, q, q');
    }
  }

  lemma OneArrival(s: Store, network: Text, k: Key, q: nat, q': nat)
    requires Valid(s) && ArrivedAt(s, network, k, q) && ArrivedAt(s, network, k, q')
    ensures q == q'
  {
    hide PrimaryKeyed, IdsIndexed, ArrivalsSound, ArrivalsComplete, ClockCovers;
    assert Slot(network, q) == Slot(network, q');
  }

  /** Every event that arrived up to the cursor, on one of the siphon's streams or on any if it has none,
      was delivered or is superseded. */
  lemma NothingIsSkipped(r: Ref, start: uint64, p: Progress, k: Key, q: uint64)
    requires SiphonInv(r, start, p) && start < q <= p.store.siphons[r].cursor
    requires Slot(r.network, q) in p.store.arrivals && p.store.arrivals[Slot(r.network, q)] == k
    ensures k in p.store.primary
    ensures p.store.siphons[r].streams == {} || p.store.primary[k].stream in p.store.siphons[r].streams ==>
      Ref(k.network, k.id) in Superseded(Events(p.store)) || exists i, j :: DeliveredAt(p.log, i, j, k)
  {
    ArrivalIsThere(p.store, Slot(r.network, q));
    OwnFields(p.store, k);
    hide Valid;
    var g := p.store.siphons[r];
    assert ArrivedAt(p.store, r.network, k, q);
    var i := TilesCover(p.log, start, g.cursor, q);
    assert Exact(p.store, r.network, g.streams, p.log[i]);
    if k in p.log[i].keys {
      var j :| 0 <= j < |p.log[i].keys| && p.log[i].keys[j] == k;
      assert DeliveredAt(p.log, i, j, k);
    }
  }

  lemma OwnFields(s: Store, k: Key)
    requires Valid(s) && k in s.primary
    ensures s.primary[k].stream == k.stream && s.primary[k].network == k.network && s.primary[k].id == k.id
  {
    hide IdsIndexed, ArrivalsIndexed, ClockCovers;
    assert KeyOf(s.primary[k]) == k;
  }

  lemma ExactKey(s: Store, network: Text, streams: set<Text>, b: Batch, k: Key)
    requires Valid(s) && Exact(s, network, streams, b) && k in b.keys
    ensures k in s.primary && s.primary[k].network == network
    ensures streams == {} || s.primary[k].stream in streams
    ensures exists q: uint64 ::
      b.from < q <= b.through && Slot(network, q) in s.arrivals && s.arrivals[Slot(network, q)] == k
  {
    hide PrimaryKeyed, IdsIndexed, ArrivalsIndexed, ClockCovers, Covered;
    var qs: seq<nat> :| IsPlacement(s, network, b.keys, b.from as nat + 1, b.through as nat + 1, qs);
    var i :| 0 <= i < |b.keys| && b.keys[i] == k;
    assert ArrivedAt(s, network, k, qs[i]);
    ArrivalIsThere(s, Slot(network, qs[i]));
    OwnFields(s, k);
  }

  /** Over every run, whatever was acknowledged, and whatever is pending, is an event of the siphon's
      network that arrived behind the starting cursor, on one of the siphon's streams or on any if it
      has none. */
  lemma OnlyWantedIsDelivered(r: Ref, start: uint64, states: seq<Progress>, moves: seq<Move>, k: Key)
    requires SiphonRun(r, states, moves) && SiphonInv(r, start, states[0])
    ensures var s, streams := states[|moves|].store, states[0].store.siphons[r].streams;
      && r in s.siphons
      && ((exists i, j :: DeliveredAt(states[|moves|].log, i, j, k))
          || (s.siphons[r].pending.Some? && k in s.siphons[r].pending.value.keys) ==>
        && k in s.primary && s.primary[k].network == r.network
        && (streams == {} || s.primary[k].stream in streams)
        && exists q: uint64 :: q > start && Slot(r.network, q) in s.arrivals && s.arrivals[Slot(r.network, q)] == k)
  {
    DeliveryTilesTheLog(r, start, states, moves);
    var p := states[|moves|];
    var g := p.store.siphons[r];
    hide SiphonRun, Valid, Exact;
    TilesOrdered(p.log, start, g.cursor);
    if i: nat, j: nat :| DeliveredAt(p.log, i, j, k) {
      assert Exact(p.store, r.network, g.streams, p.log[i]);
      ExactKey(p.store, r.network, g.streams, p.log[i], k);
    }
    if g.pending.Some? && k in g.pending.value.keys {
      var q := g.pending.value;
      ExactKey(p.store, r.network, g.streams, Batch(q.from, q.through, q.keys), k);
    }
  }

  /** What a poll hands out. While a delivery is pending, that delivery once more, with one attempt more;
      else the events that the scan found, under the new ID as the first attempt, from the cursor up to
      where the scan ended, or nothing, and then the cursor has passed what was of no interest. */
  lemma PollHandsOut(s: Store, r: Ref, limit: nat, id: Text, t: Store)
    requires Valid(s) && r in s.siphons && limit > 0 && Polled(s, r, limit, id, t)
    requires s.siphons[r].pending.Some? ==> Readable(s, s.siphons[r].pending.value.keys)
    ensures r in t.siphons && t == s.(siphons := s.siphons[r := t.siphons[r]])
    ensures t.siphons[r].streams == s.siphons[r].streams
    ensures t.siphons[r].pending.Some? ==> Readable(t, t.siphons[r].pending.value.keys)
    ensures s.siphons[r].pending.Some? ==>
      var p, d := s.siphons[r].pending.value, DeliveryOf(t, t.siphons[r]);
      && d.id == p.id && d.from == p.from && d.through == p.through && d.attempt == p.attempts + 1
      && |d.events| == |p.keys| && (forall i :: 0 <= i < |p.keys| ==> d.events[i] == s.primary[p.keys[i]])
      && t.siphons[r] == s.siphons[r].(pending := Some(p.(attempts := d.attempt)))
    ensures s.siphons[r].pending.None? ==>
      var cursor, d := s.siphons[r].cursor, DeliveryOf(t, t.siphons[r]);
      exists through: uint64, keys: seq<Key> ::
        && IsScan(s, Superseded(Events(s)), r.network, s.siphons[r].streams, cursor, limit, through, keys)
        && |d.events| == |keys|
        && (forall i :: 0 <= i < |keys| ==> keys[i] in s.primary && d.events[i] == s.primary[keys[i]])
        && (if keys != [] then
              && d.id == id && d.from == cursor && d.through == through && d.attempt == 1
              && t.siphons[r].cursor == cursor && t.siphons[r].pending == Some(Pending(id, cursor, through, keys, 1))
            else
              && d.id == [] && d.attempt == 0 && t.siphons[r].pending == None
              && d.from == d.through == t.siphons[r].cursor == (if through > cursor then through else cursor))
  {
    hide PrimaryKeyed, IdsIndexed, ArrivalsIndexed, ClockCovers, Superseded, Events, IsScan;
    var g := s.siphons[r];
    if g.pending.None? {
      var through: uint64, keys: seq<Key> :|
        IsScan(s, Superseded(Events(s)), r.network, g.streams, g.cursor, limit, through, keys) &&
        Updated(s, r, Advance(g, through, keys, id), t);
      ScanIsReadable(s, Superseded(Events(s)), r.network, g.streams, g.cursor, limit, through, keys);
    }
  }

  /****** Pending deliveries ******/

  /** Until its own acknowledgement a pending delivery is what every poll returns, whatever limit is
      asked for and whatever happens elsewhere: the same bounds and the same events, one attempt
      more with every poll. */
  lemma PendingIsStable(r: Ref, start: uint64, p: Progress, e: Move, p': Progress)
    requires SiphonInv(r, start, p) && SiphonStep(r, p, e, p') && p.store.siphons[r].pending.Some?
    requires e != AckOf(p.store.siphons[r].pending.value.id)
    ensures !e.AckOf?
    ensures var q := p.store.siphons[r].pending.value;
      && p'.store.siphons[r]
        == p.store.siphons[r].(pending := Some(q.(attempts := q.attempts + if e.PollOf? then 1 else 0)))
      && Readable(p.store, q.keys) && Readable(p'.store, q.keys)
      && EventsAt(p'.store, q.keys) == EventsAt(p.store, q.keys)
      && p'.log == p.log
  {
    var q := p.store.siphons[r].pending.value;
    PlacedIsReadable(p.store, r.network, q.keys, q.from + 1, q.through + 1);
  }

  lemma PlacedIsReadable(s: Store, network: Text, keys: seq<Key>, from: nat, end: nat)
    requires Valid(s) && InOrder(s, network, keys, from, end)
    ensures Readable(s, keys)
  {
    hide PrimaryKeyed, IdsIndexed, ArrivalsDistinct, ArrivalsComplete, ClockCovers;
    var qs: seq<nat> :| IsPlacement(s, network, keys, from, end, qs);
    forall k | k in keys ensures k in s.primary {
      var i :| 0 <= i < |keys| && keys[i] == k;
      assert ArrivedAt(s, network, k, qs[i]);
    }
  }

  ghost function Polls(moves: seq<Move>): nat {
    if moves == [] then 0 else Polls(moves[..|moves| - 1]) + if moves[|moves| - 1].PollOf? then 1 else 0
  }

  /** The same over runs of any length. */
  lemma {:induction false} PendingStableOverRuns(r: Ref, start: uint64, states: seq<Progress>, moves: seq<Move>)
    requires SiphonRun(r, states, moves) && SiphonInv(r, start, states[0]) && states[0].store.siphons[r].pending.Some?
    requires forall k :: 0 <= k < |moves| ==> moves[k] != AckOf(states[0].store.siphons[r].pending.value.id)
    ensures SiphonInv(r, start, states[|moves|])
    ensures var q := states[0].store.siphons[r].pending.value;
      var last := states[|moves|].store;
      && last.siphons[r] == states[0].store.siphons[r].(pending := Some(q.(attempts := q.attempts + Polls(moves))))
      && Readable(states[0].store, q.keys) && Readable(last, q.keys)
      && EventsAt(last, q.keys) == EventsAt(states[0].store, q.keys)
    decreases |moves|
  {
    hide SiphonStep, Valid, Exact, AllExact, Tiles;
    var q := states[0].store.siphons[r].pending.value;
    if moves == [] {
      PendingReadable(r, start, states[0]);
    } else {
      var n := |moves| - 1;
      assert SiphonRun(r, states[..n + 1], moves[..n]) by {
        forall k | 0 <= k < n ensures SiphonStep(r, states[..n + 1][k], moves[..n][k], states[..n + 1][k + 1]) {
          assert SiphonStep(r, states[k], moves[k], states[k + 1]);
        }
      }
      PendingStableOverRuns(r, start, states[..n + 1], moves[..n]);
      assert SiphonStep(r, states[n], moves[n], states[n + 1]);
      PendingIsStable(r, start, states[n], moves[n], states[n + 1]);
      SiphonStepKeeps(r, start, states[n], moves[n], states[n + 1]);
    }
  }

  lemma PendingReadable(r: Ref, start: uint64, p: Progress)
    requires SiphonInv(r, start, p) && p.store.siphons[r].pending.Some?
    ensures Readable(p.store, p.store.siphons[r].pending.value.keys)
  {
    var q := p.store.siphons[r].pending.value;
    PlacedIsReadable(p.store, r.network, q.keys, q.from + 1, q.through + 1);
  }

  /****** Draining ******/

  lemma {:induction false} MatchingJoin(s: Store, hidden: set<Ref>, network: Text, streams: set<Text>, from: nat,
      mid: nat, end: nat)
    requires from <= mid <= end
    ensures Matching(s, hidden, network, streams, from, end)
      == Matching(s, hidden, network, streams, from, mid) + Matching(s, hidden, network, streams, mid, end)
    decreases end
  {
    if mid < end {
      MatchingJoin(s, hidden, network, streams, from, mid, end - 1);
    }
  }

  lemma {:induction false} MatchingDependsOnArrivals(s: Store, t: Store, hidden: set<Ref>, network: Text,
      streams: set<Text>, from: nat, end: nat)
    requires s.arrivals == t.arrivals
    ensures Matching(s, hidden, network, streams, from, end) == Matching(t, hidden, network, streams, from, end)
    decreases end
  {
    if from < end {
      MatchingDependsOnArrivals(s, t, hidden, network, streams, from, end - 1);
    }
  }

  /** All that a siphon at this cursor still has to deliver. */
  ghost function Outstanding(s: Store, network: Text, streams: set<Text>, cursor: uint64): seq<Key> {
    Matching(s, Superseded(Events(s)), network, streams, cursor + 1, MAX_UINT64 + 1)
  }

  /** What is outstanding, event by event, in arrival order. */
  lemma OutstandingIsWanted(s: Store, network: Text, streams: set<Text>, cursor: uint64)
    requires Valid(s) && cursor < MAX_UINT64
    ensures InOrder(s, network, Outstanding(s, network, streams, cursor), cursor as nat + 1, 0x1_0000_0000_0000_0000)
    ensures forall k :: k in Outstanding(s, network, streams, cursor) <==>
      && ArrivedBetween(s, network, k, cursor, 0xFFFF_FFFF_FFFF_FFFF)
      && (streams == {} || s.primary[k].stream in streams) && Ref(network, k.id) !in Superseded(Events(s))
  {
    hide Matching, InOrder, ArrivalsIndexed, IdsIndexed, ClockCovers, Superseded;
    var hidden := Superseded(Events(s));
    MatchingSound(s, hidden, network, streams, cursor as nat + 1, MAX_UINT64 + 1);
    forall k ensures k in Outstanding(s, network, streams, cursor) <==>
      && ArrivedBetween(s, network, k, cursor, MAX_UINT64)
      && (streams == {} || s.primary[k].stream in streams) && Ref(network, k.id) !in hidden
    {
      if k in Outstanding(s, network, streams, cursor) {
        MatchingArrived(s, hidden, network, streams, cursor as nat + 1, MAX_UINT64 + 1, k);
      } else if ArrivedBetween(s, network, k, cursor, MAX_UINT64) {
        var q: uint64 :| Slot(network, q) in s.arrivals && s.arrivals[Slot(network, q)] == k && q > cursor;
        assert ArrivedAt(s, network, k, q);
      }
    }
  }

  /** A scan takes the front of what is outstanding, and all of it when it finds nothing. */
  lemma ScanTakesFront(s: Store, network: Text, streams: set<Text>, cursor: uint64, limit: nat, through: uint64,
      keys: seq<Key>)
    requires Valid(s) && cursor <= s.sequence && s.sequence < MAX_UINT64 && limit > 0
    requires IsScan(s, Superseded(Events(s)), network, streams, cursor, limit, through, keys)
    ensures cursor <= through <= s.sequence && (keys != [] ==> through > cursor)
    ensures Outstanding(s, network, streams, cursor) == keys + Outstanding(s, network, streams, through)
    ensures keys == [] ==> Outstanding(s, network, streams, through) == []
  {
    hide PrimaryKeyed, IdsIndexed, ArrivalsIndexed, ClockCovers, Superseded, Events;
    var hidden := Superseded(Events(s));
    ScanIsExact(s, network, streams, cursor, limit, through, keys);
    MatchingJoin(s, hidden, network, streams, cursor + 1, through + 1, MAX_UINT64 + 1);
    if NoneFrom(s, network, cursor + 1) {
      NoneOutstanding(s, network, streams, cursor);
    } else if keys == [] {
      NoneOutstanding(s, network, streams, through);
    }
  }

  lemma NoneOutstanding(s: Store, network: Text, streams: set<Text>, cursor: uint64)
    requires NoneFrom(s, network, cursor + 1)
    ensures Outstanding(s, network, streams, cursor) == []
  {
    NothingMatches(s, Superseded(Events(s)), network, streams, cursor + 1);
  }

  /** Delivery IDs are never blank. */
  ghost predicate AllNamed(ids: nat -> Text) {
    forall n :: Trim(ids(n)) != []
  }

  lemma NamedAt(ids: nat -> Text, n: nat)
    requires AllNamed(ids)
    ensures ids(n) != [] && Trim(ids(n)) != []
  {
    assert Trim([]) == [];
  }

  lemma NothingRead(s: Store)
    ensures Readable(s, []) && EventsAt(s, []) == []
  {
  }

  lemma ReadMore(s: Store, t: Store, keys: seq<Key>, more: seq<Key>)
    requires Readable(s, keys) && Readable(s, more) && t.primary == s.primary
    ensures Readable(s, keys + more) && Readable(t, more)
    ensures EventsAt(s, keys) + EventsAt(t, more) == EventsAt(s, keys + more)
  {
  }

  /** A consumer that polls and acknowledges until nothing comes any more, while nothing else
      happens, ends, and has then seen exactly what was outstanding, in arrival order. */
  method Drain(d: Daemon, network: Text, name: Text, limit: int, ids: nat -> Text) returns (seen: seq<Event>)
    requires Valid(d.store) && d.store.sequence < MAX_UINT64 && !Unreadable(d.Held(), network)
    requires 1 <= limit <= MAX_BATCH && AllNamed(ids)
    requires Ref(network, name) in d.store.siphons
    requires var g := d.store.siphons[Ref(network, name)]; g.pending.None? && g.cursor <= d.store.sequence
    modifies d
    ensures var g := old(d.store.siphons[Ref(network, name)]);
      var keys := Outstanding(old(d.store), network, g.streams, g.cursor);
      && Readable(old(d.store), keys) && seen == EventsAt(old(d.store), keys)
      && InOrder(old(d.store), network, keys, g.cursor as nat + 1, 0x1_0000_0000_0000_0000)
      && (forall k :: k in keys <==>
            && ArrivedBetween(old(d.store), network, k, g.cursor, 0xFFFF_FFFF_FFFF_FFFF)
            && (g.streams == {} || old(d.store).primary[k].stream in g.streams)
            && Ref(network, k.id) !in Superseded(old(d.Held())))
      && exists cursor: uint64 ::
           && Updated(old(d.store), Ref(network, name), g.(cursor := cursor), d.store)
           && Outstanding(old(d.store), network, g.streams, cursor) == []
  {
    hide PrimaryKeyed, IdsIndexed, ArrivalsIndexed, ClockCovers, Superseded, Events, Unreadable, IsScan, Outstanding,
        Trim, AllNamed, Readable, EventsAt, ArrivedBetween, InOrder;
    var ref := Ref(network, name);
    ghost var s := d.store;
    ghost var g := s.siphons[ref];
    ghost var cursor: uint64 := g.cursor;
    ghost var keys: seq<Key> := [];
    seen := [];
    var n := 0;
    assert s == s.(siphons := s.siphons[ref := g.(cursor := cursor)]);
    NothingRead(s);
    OutstandingIsWanted(s, network, g.streams, g.cursor);
    while true
      invariant Updated(s, ref, g.(cursor := cursor), d.store) && cursor <= s.sequence
      invariant Readable(s, keys) && seen == EventsAt(s, keys)
      invariant Outstanding(s, network, g.streams, g.cursor) == keys + Outstanding(s, network, g.streams, cursor)
      decreases |Outstanding(s, network, g.streams, cursor)|
    {
      UpdatedSame(s, ref, g.(cursor := cursor), d.store);
      NamedAt(ids, n);
      var polled := PollDurableSiphon(d, network, name, limit, ids(n));
      ghost var through, found := PolledFront(s, ref, g.(cursor := cursor), limit, ids(n), d.store);
      if polled.value.id == [] {
        cursor := through;
        assert keys + [] == keys;
        return;
      }
      seen := seen + polled.value.events;
      var acked := AcknowledgeDurableSiphon(d, network, name, polled.value.id);
      assert keys + (found + Outstanding(s, network, g.streams, through))
        == keys + found + Outstanding(s, network, g.streams, through);
      ReadMore(s, d.store, keys, found);
      keys := keys + found;
      cursor := through;
      n := n + 1;
    }
  }

  lemma UpdatedSame(s: Store, r: Ref, g: Siphon, t: Store)
    requires Valid(s) && Updated(s, r, g, t)
    ensures Valid(t) && Events(t) == Events(s) && t.sequence == s.sequence && t.primary == s.primary
    ensures r in t.siphons && t.siphons[r] == g
  {
    SideTablesKeepValid(s, t.siphons, s.observed);
  }

  /** What a poll of a siphon without a pending delivery hands out is the front of what is
      outstanding. */
  lemma PolledFront(s: Store, r: Ref, g: Siphon, limit: nat, id: Text, t: Store) returns (through: uint64,
      keys: seq<Key>)
    requires Valid(s) && s.sequence < MAX_UINT64 && limit > 0 && g.pending.None? && g.cursor <= s.sequence
    requires Polled(s.(siphons := s.siphons[r := g]), r, limit, id, t)
    ensures g.cursor <= through <= s.sequence && Readable(s, keys)
    ensures Outstanding(s, r.network, g.streams, g.cursor) == keys + Outstanding(s, r.network, g.streams, through)
    ensures keys == [] ==>
      Outstanding(s, r.network, g.streams, through) == [] && Updated(s, r, g.(cursor := through), t)
    ensures keys != [] ==> Updated(s, r, g.(pending := Some(Pending(id, g.cursor, through, keys, 1))), t)
  {
    hide PrimaryKeyed, IdsIndexed, ArrivalsIndexed, ClockCovers, Superseded, IsScan, Outstanding, Events;
    var u := s.(siphons := s.siphons[r := g]);
    UpdatedSame(s, r, g, u);
    through, keys :|
      IsScan(u, Superseded(Events(u)), r.network, g.streams, g.cursor, limit, through, keys) &&
      Updated(u, r, Advance(g, through, keys, id), t);
    ScanTakesFront(u, r.network, g.streams, g.cursor, limit, through, keys);
    ScanIsReadable(u, Superseded(Events(u)), r.network, g.streams, g.cursor, limit, through, keys);
    OutstandingSame(s, u, r.network, g.streams, g.cursor);
    OutstandingSame(s, u, r.network, g.streams, through);
    assert u.siphons[r := Advance(g, through, keys, id)] == s.siphons[r := Advance(g, through, keys, id)];
  }

  lemma OutstandingSame(s: Store, t: Store, network: Text, streams: set<Text>, cursor: uint64)
    requires s.arrivals == t.arrivals && Events(s) == Events(t)
    ensures Outstanding(s, network, streams, cursor) == Outstanding(t, network, streams, cursor)
  {
    MatchingDependsOnArrivals(s, t, Superseded(Events(s)), network, streams, cursor + 1, MAX_UINT64 + 1);
  }

  /****** Where the sequence numbers end ******/

  /** A cursor at the last number wraps, and the next poll starts again at the network's first event.
      So a new delivery holds something from at or below its own cursor if and only if the cursor is
      at the last number and anything the siphon wants has arrived. */
  lemma ExhaustedCursorRedelivers(s: Store, r: Ref, limit: nat, id: Text, t: Store)
    requires Valid(s) && r in s.siphons && s.siphons[r].pending.None? && limit > 0
    requires Polled(s, r, limit, id, t)
    ensures r in t.siphons
    ensures var g := s.siphons[r];
      Redelivers(s, r.network, t.siphons[r], g.cursor) <==>
        g.cursor == MAX_UINT64 && Matching(s, Superseded(Events(s)), r.network, g.streams, 0, MAX_UINT64 + 1) != []
  {
    hide Valid, Superseded, Events, ArrivedAt, IsScan;
    var g := s.siphons[r];
    var through: uint64, keys: seq<Key> :|
      IsScan(s, Superseded(Events(s)), r.network, g.streams, g.cursor, limit, through, keys) &&
      Updated(s, r, Advance(g, through, keys, id), t);
    ScanWraps(s, Superseded(Events(s)), r.network, g.streams, g.cursor, limit, through, keys);
  }

  lemma ScanWraps(s: Store, hidden: set<Ref>, network: Text, streams: set<Text>, cursor: uint64, limit: nat,
      through: uint64, keys: seq<Key>)
    requires Valid(s) && limit > 0 && IsScan(s, hidden, network, streams, cursor, limit, through, keys)
    ensures (exists k, q: nat :: k in keys && ArrivedAt(s, network, k, q) && q <= cursor) <==>
      cursor == MAX_UINT64 && Matching(s, hidden, network, streams, 0, MAX_UINT64 + 1) != []
  {
    hide Valid, ArrivedAt, Chosen, Matching;
    var from := Seek(cursor);
    if NoneFrom(s, network, from) {
      if cursor == MAX_UINT64 {
        NothingMatches(s, hidden, network, streams, 0);
      }
    } else {
      MatchingSound(s, hidden, network, streams, from, through + 1);
      var qs: seq<nat> :| IsPlacement(s, network, keys, from, through + 1, qs);
      PlacedAbove(s, network, keys, from, through + 1, qs);
      hide IsPlacement;
      if cursor == MAX_UINT64 {
        MatchingJoin(s, hidden, network, streams, 0, through + 1, MAX_UINT64 + 1);
        if keys == [] {
          NothingMatches(s, hidden, network, streams, through + 1);
        } else {
          FirstPlace(s, network, keys, from, through + 1, qs);
        }
      }
    }
  }

  lemma FirstPlace(s: Store, network: Text, keys: seq<Key>, from: nat, end: nat, qs: seq<nat>)
    requires IsPlacement(s, network, keys, from, end, qs) && keys != []
    ensures exists k, q: nat :: k in keys && ArrivedAt(s, network, k, q) && q < end
  {
    hide ArrivedAt;
    assert keys[0] in keys && ArrivedAt(s, network, keys[0], qs[0]);
  }

  ghost predicate Redelivers(s: Store, network: Text, g: Siphon, cursor: uint64) {
    g.pending.Some? && exists k, q: nat :: k in g.pending.value.keys && ArrivedAt(s, network, k, q) && q <= cursor
  }

  lemma PlacedAbove(s: Store, network: Text, keys: seq<Key>, from: nat, end: nat, qs: seq<nat>)
    requires Valid(s) && IsPlacement(s, network, keys, from, end, qs)
    ensures forall k, q: nat :: k in keys && ArrivedAt(s, network, k, q) ==> from <= q
  {
    hide Valid, ArrivedAt;
    forall k, q: nat | k in keys && ArrivedAt(s, network, k, q) ensures from <= q {
      var i :| 0 <= i < |keys| && keys[i] == k;
      OneArrival(s, network, k, q, qs[i]);
    }
  }

  lemma NothingMatches(s: Store, hidden: set<Ref>, network: Text, streams: set<Text>, from: nat)
    requires NoneFrom(s, network, from) && from <= MAX_UINT64 + 1
    ensures Matching(s, hidden, network, streams, from, MAX_UINT64 + 1) == []
  {
    forall x: nat | from <= x < MAX_UINT64 + 1 ensures !Occupied(s, network, x) {
      if x <= MAX_UINT64 {
        assert Slot(network, x).sequence == x;
      }
    }
    MatchingGap(s, hidden, network, streams, from, from, MAX_UINT64 + 1);
  }
}
