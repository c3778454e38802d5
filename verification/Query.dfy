/** Queries: a filtered scan, a sort by chronological key, and a limit. */
module Query {
  import opened Wrappers
  import opened Bytes
  import opened Listing
  import opened Hlc
  import opened Digits
  import opened Timestamps
  import opened KeyCodec
  import opened Keys
  import opened Chronology
  import opened Store
  import opened Replication
  import opened Replica
  import opened DaemonObject
  import World

  const ASCENDING: Text := Ascii("asc")
  const DESCENDING: Text := Ascii("desc")

  /** inRange; the time 0 stands for a bound that was not given. */
  predicate InRange(e: Event, from: Time, upto: Time) {
    (from > 0 ==> e.occurredAt >= from) && (upto > 0 ==> e.occurredAt <= upto)
  }

  ghost predicate Shown(m: map<Ref, Event>, network: Text, e: Event) {
    RefOf(e) in Visible(m, network) && Visible(m, network)[RefOf(e)] == e
  }

  /** How often a query collects an event: once for the whole network, or once for every time its
      stream is listed. */
  ghost function Occurrences(m: map<Ref, Event>, network: Text, streams: seq<Text>, from: Time, upto: Time,
      e: Event): nat {
    if Shown(m, network, e) && InRange(e, from, upto) then
      if streams == [] then 1 else multiset(streams)[e.stream]
    else 0
  }

  ghost predicate Collects(m: map<Ref, Event>, network: Text, streams: seq<Text>, from: Time, upto: Time,
      all: seq<Event>) {
    forall e :: multiset(all)[e] == Occurrences(m, network, streams, from, upto, e)
  }

  ghost predicate Sorted(s: seq<Event>, desc: bool) {
    forall i, j :: 0 <= i < j < |s| ==> Follows(s[i], s[j], desc)
  }

  /** f may stand behind e. */
  predicate Follows(e: Event, f: Event, desc: bool) {
    if desc then !Less(ChronologicalKey(e), ChronologicalKey(f)) else !Less(ChronologicalKey(f), ChronologicalKey(e))
  }

  function Limited(all: seq<Event>, limit: nat): seq<Event> {
    if limit > 0 && |all| > limit then all[..limit] else all
  }

  /** What a query may answer: the collected events, sorted, cut off at the limit. */
  ghost predicate IsAnswer(m: map<Ref, Event>, network: Text, streams: seq<Text>, from: Time, upto: Time, limit: nat,
      desc: bool, answer: seq<Event>) {
    exists all :: Collects(m, network, streams, from, upto, all) && Sorted(all, desc) && answer == Limited(all, limit)
  }

  /****** Sorting ******/

  function Insert(e: Event, s: seq<Event>, desc: bool): seq<Event> {
    if s == [] || Follows(e, s[0], desc) then [e] + s else [s[0]] + Insert(e, s[1..], desc)
  }

  lemma FollowsTotal(e: Event, f: Event, desc: bool)
    ensures Follows(e, f, desc) || Follows(f, e, desc)
  {
    if Less(ChronologicalKey(e), ChronologicalKey(f)) {
      LessAsymmetric(ChronologicalKey(e), ChronologicalKey(f));
    }
  }

  lemma FollowsTransitive(e: Event, f: Event, g: Event, desc: bool)
    requires Follows(e, f, desc) && Follows(f, g, desc)
    ensures Follows(e, g, desc)
  {
    var x, y, z := ChronologicalKey(e), ChronologicalKey(f), ChronologicalKey(g);
    hide ChronologicalKey, Less;
    if desc {
      NotLessTransitive(z, y, x);
    } else {
      NotLessTransitive(x, y, z);
    }
  }

  lemma NotLessTransitive(x: Text, y: Text, z: Text)
    requires !Less(y, x) && !Less(z, y)
    ensures !Less(z, x)
  {
    LessTotal(x, y);
    LessTotal(y, z);
    if Less(z, x) {
      if x != y {
        LessTransitive(z, x, y);
      }
    }
  }

  lemma {:induction false} InsertKeeps(e: Event, s: seq<Event>, desc: bool)
    ensures multiset(Insert(e, s, desc)) == multiset(s) + multiset{e}
  {
    hide Follows;
    if s != [] && !Follows(e, s[0], desc) {
      InsertKeeps(e, s[1..], desc);
      assert s == [s[0]] + s[1..];
    }
  }

  lemma {:induction false} InsertSorts(e: Event, s: seq<Event>, desc: bool)
    requires Sorted(s, desc)
    ensures Sorted(Insert(e, s, desc), desc) && multiset(Insert(e, s, desc)) == multiset(s) + multiset{e}
  {
    hide Follows;
    InsertKeeps(e, s, desc);
    if s == [] {
    } else if Follows(e, s[0], desc) {
      forall j | 0 <= j < |s| ensures Follows(e, s[j], desc) {
        if j > 0 {
          FollowsTransitive(e, s[0], s[j], desc);
        }
      }
    } else {
      FollowsTotal(e, s[0], desc);
      InsertSorts(e, s[1..], desc);
      var rest := Insert(e, s[1..], desc);
      forall j | 0 <= j < |rest| ensures Follows(s[0], rest[j], desc) {
        assert rest[j] in multiset(rest);
        if rest[j] != e {
          assert rest[j] in s[1..];
        }
      }
    }
  }

  /** sort.Slice; the order of events with equal keys is not promised. */
  method SortEvents(events: seq<Event>, desc: bool) returns (sorted: seq<Event>)
    ensures Sorted(sorted, desc) && multiset(sorted) == multiset(events)
  {
    hide Insert, Follows;
    sorted := [];
    var i := 0;
    while i < |events|
      invariant 0 <= i <= |events|
      invariant Sorted(sorted, desc) && multiset(sorted) == multiset(events[..i])
    {
      InsertSorts(events[i], sorted, desc);
      sorted := Insert(events[i], sorted, desc);
      assert events[..i + 1] == events[..i] + [events[i]];
      i := i + 1;
    }
    assert events[..i] == events;
  }

  /****** The query ******/

  /** queryPrefixes: one scan of the whole network, or one for each listed stream. */
  function Scans(streams: seq<Text>): (scans: seq<Option<Text>>)
  {
    if streams == [] then [None] else seq(|streams|, i requires 0 <= i < |streams| => Some(streams[i]))
  }

  predicate InScan(scan: Option<Text>, stream: Text) {
    scan.Some? ==> stream == scan.value
  }

  /** How many of the scans come across a stream. */
  function Hits(scans: seq<Option<Text>>, stream: Text): nat {
    if scans == [] then 0
    else Hits(scans[..|scans| - 1], stream) + if InScan(scans[|scans| - 1], stream) then 1 else 0
  }

  lemma {:induction false} HitsCount(streams: seq<Text>, n: nat, stream: Text)
    requires streams != [] && n <= |streams|
    ensures Hits(Scans(streams)[..n], stream) == multiset(streams[..n])[stream]
    decreases n
  {
    if n > 0 {
      HitsCount(streams, n - 1, stream);
      assert Scans(streams)[..n][..n - 1] == Scans(streams)[..n - 1];
      assert streams[..n] == streams[..n - 1] + [streams[n - 1]];
    }
  }

  lemma HitsAre(streams: seq<Text>, stream: Text)
    ensures Hits(Scans(streams), stream) == if streams == [] then 1 else multiset(streams)[stream]
  {
    if streams == [] {
      assert Scans(streams)[..0] == [];
    } else {
      HitsCount(streams, |streams|, stream);
      assert Scans(streams)[..|streams|] == Scans(streams) && streams[..|streams|] == streams;
    }
  }

  /** What is shown is stored under its own key. */
  lemma ShownIsStored(s: Store, network: Text, e: Event)
    requires Valid(s)
    ensures Shown(Events(s), network, e) <==>
      KeyOf(e) in s.primary && s.primary[KeyOf(e)] == e && e.network == network && RefOf(e) !in Superseded(Events(s))
  {
    hide ArrivalsIndexed, ClockCovers, Superseded;
    FindIsEvents(s, RefOf(e));
    if KeyOf(e) in s.primary {
      StoredHeld(s, KeyOf(e));
    }
  }

  /** One scan of an event prefix. */
  method ScanEvents(d: Daemon, network: Text, scan: Option<Text>, resolved: set<Text>, from: Time, upto: Time)
    returns (events: seq<Event>)
    requires Valid(d.store)
    requires forall id :: id in resolved <==> Ref(network, id) in Superseded(d.Held())
    ensures forall e :: multiset(events)[e] == if Shown(d.Held(), network, e)
      && InRange(e, from, upto) && InScan(scan, e.stream) then 1 else 0
  {
    hide IdsIndexed, ArrivalsIndexed, ClockCovers, Superseded, Events, Shown;
    var left := set k | k in d.store.primary && k.network == network && InScan(scan, k.stream);
    ghost var all := left;
    events := [];
    while left != {}
      invariant left <= all
      invariant forall e :: multiset(events)[e] == if Shown(d.Held(), network, e)
        && InRange(e, from, upto) && KeyOf(e) in all - left then 1 else 0
      decreases |left|
    {
      var k :| k in left;
      var event := d.store.primary[k];
      assert KeyOf(event) == k;
      ShownIsStored(d.store, network, event);
      forall e | Shown(d.Held(), network, e) && KeyOf(e) == k ensures e == event {
        ShownIsStored(d.store, network, e);
      }
      left := left - {k};
      if event.id !in resolved && InRange(event, from, upto) {
        events := events + [event];
      }
    }
    forall e | Shown(d.Held(), network, e) ensures KeyOf(e) in all <==> InScan(scan, e.stream) {
      ShownIsStored(d.store, network, e);
    }
  }

  /** queryOrdered */
  method QueryOrdered(d: Daemon, network: Text, streams: seq<Text>, from: Time, upto: Time, limit: int, order: Text)
    returns (r: Result<seq<Event>>)
    requires Valid(d.store)
    ensures r == Err(InvalidRequest) <==>
      network == [] || order !in {[], Ascii("asc"), Ascii("desc")} || limit < 0
    ensures r.Err? ==> r.failure == InvalidRequest || (r.failure == UnreadableStore && Unreadable(d.Held(), network))
    ensures r.Ok? ==> !Unreadable(d.Held(), network)
    ensures r.Ok? ==> IsAnswer(d.Held(), network, streams, from, upto, limit, order == Ascii("desc"), r.value)
  {
    hide PrimaryKeyed, IdsIndexed, ArrivalsIndexed, ClockCovers, Superseded, Events, Shown, Unreadable, Scans, Hits,
        InScan, InRange;
    if network == [] {
      return Err(InvalidRequest);
    }
    if order != [] && order != ASCENDING && order != DESCENDING {
      return Err(InvalidRequest);
    }
    if limit < 0 {
      return Err(InvalidRequest);
    }
    var resolutions := d.ConflictResolutions(network);
    if resolutions.Err? {
      return Err(UnreadableStore);
    }
    var scans := Scans(streams);
    var events: seq<Event> := [];
    var i := 0;
    assert scans[..0] == [];
    NoHits();
    while i < |scans|
      invariant 0 <= i <= |scans|
      invariant forall e :: multiset(events)[e] == if Shown(d.Held(), network, e) && InRange(e, from, upto)
        then Hits(scans[..i], e.stream) else 0
    {
      var found := ScanEvents(d, network, scans[i], resolutions.value, from, upto);
      HitsStep(scans, i);
      events := events + found;
      i := i + 1;
    }
    assert scans[..i] == scans;
    forall e: Event ensures Hits(scans, e.stream) == if streams == [] then 1 else multiset(streams)[e.stream] {
      HitsAre(streams, e.stream);
    }
    var sorted := SortEvents(events, order == DESCENDING);
    assert Collects(d.Held(), network, streams, from, upto, sorted);
    if limit > 0 && |sorted| > limit {
      r := Ok(sorted[..limit]);
    } else {
      r := Ok(sorted);
    }
  }

  lemma NoHits()
    ensures forall stream :: Hits([], stream) == 0
  {
  }

  lemma HitsStep(scans: seq<Option<Text>>, i: nat)
    requires i < |scans|
    ensures forall stream {:trigger Hits(scans[..i + 1], stream)} ::
      Hits(scans[..i + 1], stream) == Hits(scans[..i], stream) + if InScan(scans[i], stream) then 1 else 0
  {
    assert scans[..i + 1][..i] == scans[..i];
  }

  /****** When the answer is determined ******/

  /** No two shown events of the network have the same chronological key. */
  ghost predicate KeysDiffer(m: map<Ref, Event>, network: Text) {
    forall e, f :: Shown(m, network, e) && Shown(m, network, f) && ChronologicalKey(e) == ChronologicalKey(f) ==> e == f
  }

  function KeysOf(s: seq<Event>): (keys: seq<Text>)
    ensures |keys| == |s|
  {
    seq(|s|, i requires 0 <= i < |s| => ChronologicalKey(s[i]))
  }

  lemma {:induction false} DistinctOnce(streams: seq<Text>, stream: Text)
    requires Distinct(streams)
    ensures multiset(streams)[stream] <= 1
  {
    if streams != [] {
      var front, last := streams[..|streams| - 1], streams[|streams| - 1];
      DistinctOnce(front, stream);
      assert streams == front + [last];
      assert last !in front;
    }
  }

  lemma OnceDiffers(all: seq<Event>, i: nat, j: nat)
    requires i < j < |all| && multiset(all)[all[i]] <= 1
    ensures all[i] != all[j]
  {
    assert all == all[..j] + ([all[j]] + all[j + 1..]);
    assert all[i] in all[..j];
  }

  lemma CollectedShown(m: map<Ref, Event>, network: Text, streams: seq<Text>, from: Time, upto: Time, all: seq<Event>)
    requires Collects(m, network, streams, from, upto, all) && Distinct(streams)
    ensures forall e :: e in all ==> Shown(m, network, e)
    ensures forall i, j :: 0 <= i < j < |all| ==> all[i] != all[j]
  {
    hide Shown;
    forall e | e in all ensures Shown(m, network, e) {
      assert e in multiset(all);
    }
    forall i, j | 0 <= i < j < |all| ensures all[i] != all[j] {
      DistinctOnce(streams, all[i].stream);
      OnceDiffers(all, i, j);
    }
  }

  lemma SortedAscends(m: map<Ref, Event>, network: Text, streams: seq<Text>, from: Time, upto: Time, all: seq<Event>)
    requires Collects(m, network, streams, from, upto, all) && Distinct(streams) && KeysDiffer(m, network)
    requires Sorted(all, false)
    ensures Ascends(KeysOf(all))
  {
    hide Shown, ChronologicalKey, Less;
    CollectedShown(m, network, streams, from, upto, all);
    forall i, j | 0 <= i < j < |all| ensures Less(ChronologicalKey(all[i]), ChronologicalKey(all[j])) {
      assert Follows(all[i], all[j], false);
      LessTotal(ChronologicalKey(all[i]), ChronologicalKey(all[j]));
      assert all[i] in all && all[j] in all;
    }
  }

  /** Two sorted collections of one query are the same. */
  lemma SortedCollectionUnique(m: map<Ref, Event>, network: Text, streams: seq<Text>, from: Time, upto: Time,
      a: seq<Event>, b: seq<Event>)
    requires Distinct(streams) && KeysDiffer(m, network)
    requires Collects(m, network, streams, from, upto, a) && Sorted(a, false)
    requires Collects(m, network, streams, from, upto, b) && Sorted(b, false)
    ensures a == b
  {
    SortedAscends(m, network, streams, from, upto, a);
    SortedAscends(m, network, streams, from, upto, b);
    CollectedShown(m, network, streams, from, upto, a);
    CollectedShown(m, network, streams, from, upto, b);
    hide Shown, ChronologicalKey, Less, Occurrences, Ascends, Sorted;
    SameKeys(a, b);
    SameKeys(b, a);
    AscendingUnique(KeysOf(a), KeysOf(b));
    forall i | 0 <= i < |a| ensures a[i] == b[i] {
      assert KeysOf(a)[i] == KeysOf(b)[i];
      assert a[i] in a && b[i] in b;
    }
  }

  lemma SameKeys(a: seq<Event>, b: seq<Event>)
    requires forall e :: multiset(a)[e] == multiset(b)[e]
    ensures forall k :: k in KeysOf(a) ==> k in KeysOf(b)
  {
    hide ChronologicalKey;
    forall k | k in KeysOf(a) ensures k in KeysOf(b) {
      var i :| 0 <= i < |a| && KeysOf(a)[i] == k;
      assert a[i] in multiset(b);
      var j :| 0 <= j < |b| && b[j] == a[i];
      assert KeysOf(b)[j] == k;
    }
  }

  function Reversed(s: seq<Event>): seq<Event> {
    if s == [] then [] else Reversed(s[1..]) + [s[0]]
  }

  lemma {:induction false} ReversedKeepsEvents(s: seq<Event>)
    ensures multiset(Reversed(s)) == multiset(s)
  {
    if s != [] {
      ReversedKeepsEvents(s[1..]);
      assert s == [s[0]] + s[1..];
    }
  }

  lemma {:induction false} ReversedTwice(s: seq<Event>)
    ensures Reversed(Reversed(s)) == s
  {
    if s != [] {
      ReversedTwice(s[1..]);
      ReversedAppend(Reversed(s[1..]), s[0]);
    }
  }

  lemma {:induction false} ReversedMembers(s: seq<Event>)
    ensures forall i :: 0 <= i < |Reversed(s)| ==> Reversed(s)[i] in s
  {
    if s != [] {
      ReversedMembers(s[1..]);
    }
  }

  lemma {:induction false} ReversedSorts(s: seq<Event>, desc: bool)
    requires Sorted(s, desc)
    ensures Sorted(Reversed(s), !desc)
  {
    hide Follows;
    if s != [] {
      ReversedSorts(s[1..], desc);
      ReversedMembers(s[1..]);
      forall x | x in s[1..] ensures Follows(x, s[0], !desc) {
        FollowsEitherWay(s[0], x, desc);
      }
      SortedAppend(Reversed(s[1..]), s[0], !desc);
    }
  }

  lemma SortedAppend(s: seq<Event>, e: Event, desc: bool)
    requires Sorted(s, desc) && forall i :: 0 <= i < |s| ==> Follows(s[i], e, desc)
    ensures Sorted(s + [e], desc)
  {
    hide Follows;
  }

  lemma FollowsEitherWay(e: Event, f: Event, desc: bool)
    ensures Follows(e, f, desc) == Follows(f, e, !desc)
  {
  }

  lemma {:induction false} ReversedAppend(s: seq<Event>, e: Event)
    ensures Reversed(s + [e]) == [e] + Reversed(s)
  {
    if s != [] {
      ReversedAppend(s[1..], e);
      assert (s + [e])[1..] == s[1..] + [e];
    } else {
      assert s + [e] == [e];
    }
  }

  /** With no stream listed twice, a query answers exactly the sorted list of the shown events that
      match, and descending order is the reverse of ascending order. */
  lemma AnswersAreDetermined(m: map<Ref, Event>, network: Text, streams: seq<Text>, from: Time, upto: Time, limit: nat,
      desc: bool,
      answer: seq<Event>, all: seq<Event>)
    requires Distinct(streams) && KeysDiffer(m, network)
    requires IsAnswer(m, network, streams, from, upto, limit, desc, answer)
    requires IsAnswer(m, network, streams, from, upto, 0, false, all)
    ensures answer == Limited(if desc then Reversed(all) else all, limit)
  {
    hide KeysDiffer, Occurrences, Follows;
    var x :| Collects(m, network, streams, from, upto, x) && Sorted(x, desc) && answer == Limited(x, limit);
    if desc {
      ReversedSorts(x, true);
      ReversedKeepsEvents(x);
      ReversedTwice(x);
      SortedCollectionUnique(m, network, streams, from, upto, Reversed(x), all);
    } else {
      SortedCollectionUnique(m, network, streams, from, upto, x, all);
    }
  }

  /** What the unlimited answer lists: each event of the network that is held and not superseded, lies
      within the bounds that were given, and is on a listed stream or any if none is listed; once for
      every time its stream is listed, and no other. */
  lemma AnswerListsMatches(m: map<Ref, Event>, network: Text, streams: seq<Text>, from: Time, upto: Time,
      desc: bool, all: seq<Event>, e: Event)
    requires IsAnswer(m, network, streams, from, upto, 0, desc, all)
    ensures e in all <==>
      && e.network == network && Ref(network, e.id) in m && m[Ref(network, e.id)] == e
      && Ref(network, e.id) !in Superseded(m)
      && (from > 0 ==> from <= e.occurredAt) && (upto > 0 ==> e.occurredAt <= upto)
      && (streams == [] || e.stream in streams)
    ensures e in all && streams != [] ==> multiset(all)[e] == multiset(streams)[e.stream]
    ensures Distinct(streams) ==> forall i, j :: 0 <= i < j < |all| ==> all[i] != all[j]
  {
    hide Superseded, Follows;
    assert e in all <==> e in multiset(all);
    assert e.stream in streams <==> e.stream in multiset(streams);
    if Distinct(streams) {
      CollectedShown(m, network, streams, from, upto, all);
    }
  }

  /** An ascending answer never goes back in time: not in the time of occurrence, among equals not in the
      time of insertion, among equals not in the counter, and then not in the text "device:stream:id".
      A descending answer is its mirror image. */
  lemma AnswerIsChronological(m: map<Ref, Event>, network: Text, streams: seq<Text>, from: Time, upto: Time,
      limit: nat, desc: bool, answer: seq<Event>, i: nat, j: nat)
    requires IsAnswer(m, network, streams, from, upto, limit, desc, answer) && i < j < |answer|
    requires Timely(answer[i]) && Timely(answer[j])
    ensures var e, f := if desc then answer[j] else answer[i], if desc then answer[i] else answer[j];
      && e.occurredAt <= f.occurredAt
      && (e.occurredAt == f.occurredAt ==> e.insertedAt <= f.insertedAt)
      && (e.occurredAt == f.occurredAt && e.insertedAt == f.insertedAt ==> e.counter <= f.counter)
      && (e.occurredAt == f.occurredAt && e.insertedAt == f.insertedAt && e.counter == f.counter ==>
            !Less(f.device + Ascii(":") + f.stream + Ascii(":") + f.id,
                  e.device + Ascii(":") + e.stream + Ascii(":") + e.id))
  {
    hide ChronologicalKey, Timely, Less, Collects;
    var all :| Collects(m, network, streams, from, upto, all) && Sorted(all, desc) && answer == Limited(all, limit);
    assert Follows(all[i], all[j], desc);
    KeyOrderIsTimeOrder(answer[i], answer[j]);
    KeyOrderIsTimeOrder(answer[j], answer[i]);
  }

  /** The limit cuts off the end of the answer: a limited answer is a front of an unlimited one, and
      shorter than it only if it is as long as the limit. */
  lemma LimitCutsTheEnd(m: map<Ref, Event>, network: Text, streams: seq<Text>, from: Time, upto: Time,
      limit: nat, desc: bool, answer: seq<Event>)
    requires IsAnswer(m, network, streams, from, upto, limit, desc, answer)
    ensures exists all ::
      && IsAnswer(m, network, streams, from, upto, 0, desc, all) && answer <= all
      && (limit > 0 ==> |answer| <= limit) && (answer != all ==> limit > 0 && |answer| == limit)
  {
    hide Collects, Sorted;
    var all :| Collects(m, network, streams, from, upto, all) && Sorted(all, desc) && answer == Limited(all, limit);
    assert Limited(all, 0) == all;
    assert IsAnswer(m, network, streams, from, upto, 0, desc, all);
  }

  /****** On all nodes alike ******/

  ghost predicate ColonFree(t: Text) {
    forall i :: 0 <= i < |t| ==> t[i] != COLON
  }

  lemma ColonFreeFront(x: Text, u: Text, y: Text, v: Text)
    requires ColonFree(x) && ColonFree(y) && x + (SEPARATOR + u) == y + (SEPARATOR + v)
    ensures x == y && u == v
  {
    ColonAt(x, u);
    ColonAt(y, v);
    var t := x + (SEPARATOR + u);
    assert |x| == |y|;
    assert x == t[..|x|] && y == t[..|x|];
    assert u == t[|x| + 1..] && v == t[|x| + 1..];
  }

  lemma ColonAt(x: Text, u: Text)
    requires ColonFree(x)
    ensures var t := x + (SEPARATOR + u); t[|x|] == COLON && forall i :: 0 <= i < |x| ==> t[i] != COLON
  {
  }

  /** The fixed-width parts of a chronological key can be read back, and the device too if it has no
      colon; the stream and the ID cannot be told apart in general. */
  lemma ChronologicalKeyParts(e: Event, f: Event)
    requires Timely(e) && Timely(f) && ChronologicalKey(e) == ChronologicalKey(f)
    ensures e.occurredAt == f.occurredAt && Stamp(e) == Stamp(f) && Names(e) == Names(f)
    ensures ColonFree(e.device) && ColonFree(f.device) ==>
      e.device == f.device && e.stream + (SEPARATOR + e.id) == f.stream + (SEPARATOR + f.id)
  {
    hide TimeText, Padded, Count;
    TimestampsOrdered(e.occurredAt, f.occurredAt);
    TimestampsOrdered(e.insertedAt, f.insertedAt);
    CounterFits(e.counter);
    CounterFits(f.counter);
    PaddedInjective(e.counter, f.counter, 20);
    var n, o := SEPARATOR + Names(e), SEPARATOR + Names(f);
    hide Names;
    var u, v := SEPARATOR + (Padded(e.counter, 20) + n), SEPARATOR + (Padded(f.counter, 20) + o);
    SameWidth(TimeText(e.occurredAt), SEPARATOR + (TimeText(e.insertedAt) + u),
      TimeText(f.occurredAt), SEPARATOR + (TimeText(f.insertedAt) + v));
    SamePrefix(SEPARATOR, TimeText(e.insertedAt) + u, TimeText(f.insertedAt) + v);
    SameWidth(TimeText(e.insertedAt), u, TimeText(f.insertedAt), v);
    SamePrefix(SEPARATOR, Padded(e.counter, 20) + n, Padded(f.counter, 20) + o);
    SameWidth(Padded(e.counter, 20), n, Padded(f.counter, 20), o);
    SamePrefix(SEPARATOR, Names(e), Names(f));
    if ColonFree(e.device) && ColonFree(f.device) {
      NamesParts(e, f);
    }
  }

  lemma NamesParts(e: Event, f: Event)
    requires Names(e) == Names(f) && ColonFree(e.device) && ColonFree(f.device)
    ensures e.device == f.device && e.stream + (SEPARATOR + e.id) == f.stream + (SEPARATOR + f.id)
  {
    ColonFreeFront(e.device, e.stream + (SEPARATOR + e.id), f.device, f.stream + (SEPARATOR + f.id));
  }

  /** Chronological keys are ambiguous for arbitrary names: the stream "a" with the ID "b:c", and the
      stream "a:b" with the ID "c". */
  lemma ChronologicalKeyIsAmbiguous(e: Event, f: Event)
    requires e.stream == Ascii("a") && e.id == Ascii("b:c") && f == e.(stream := Ascii("a:b"), id := Ascii("c"))
    ensures e != f && ChronologicalKey(e) == ChronologicalKey(f)
  {
    assert e.stream + (SEPARATOR + e.id) == Ascii("a:b:c") == f.stream + (SEPARATOR + f.id);
    assert |e.id| != |f.id|;
  }

  /** In every reachable world a node's chronological keys do tell its events apart, because a device
      stamps each of its events once. */
  lemma ReachableKeysDiffer(h: Hashes, w: World.World, i: nat, network: Text)
    requires World.Inv(h, w) && i < |w.nodes|
    requires forall e :: e in w.held ==> Timely(e) && ColonFree(e.device)
    ensures KeysDiffer(Events(w.nodes[i].store), network)
  {
    hide ChronologicalKey, Timely, ColonFree, Valid, CollisionFree, World.HeldSound, World.BornNamed;
    var m := Events(w.nodes[i].store);
    assert Holds(m, w.held);
    forall e, f | Shown(m, network, e) && Shown(m, network, f) && ChronologicalKey(e) == ChronologicalKey(f)
      ensures e == f
    {
      assert e in w.held && f in w.held;
      ChronologicalKeyParts(e, f);
      assert World.SameOrigin(e, f);
      SameIdsThen(e, f);
    }
  }

  lemma SameIdsThen(e: Event, f: Event)
    requires World.SameOrigin(e, f) && e.stream + (SEPARATOR + e.id) == f.stream + (SEPARATOR + f.id)
    ensures e == f
  {
    SamePrefix(e.stream, SEPARATOR + e.id, SEPARATOR + f.id);
    SamePrefix(SEPARATOR, e.id, f.id);
  }

  /** Nodes that show the same events of a network answer every query with the same list. */
  lemma NodesAnswerAlike(h: Hashes, w: World.World, i: nat, j: nat, network: Text, streams: seq<Text>, from: Time,
      upto: Time,
      limit: nat, desc: bool, a: seq<Event>, b: seq<Event>)
    requires World.Inv(h, w) && i < |w.nodes| && j < |w.nodes| && Distinct(streams)
    requires forall e :: e in w.held ==> Timely(e) && ColonFree(e.device)
    requires Visible(Events(w.nodes[i].store), network) == Visible(Events(w.nodes[j].store), network)
    requires IsAnswer(Events(w.nodes[i].store), network, streams, from, upto, limit, desc, a)
    requires IsAnswer(Events(w.nodes[j].store), network, streams, from, upto, limit, desc, b)
    ensures a == b
  {
    hide World.Inv, Timely, ColonFree, Sorted, Visible, ChronologicalKey, Events;
    var m, n := Events(w.nodes[i].store), Events(w.nodes[j].store);
    ReachableKeysDiffer(h, w, i, network);
    hide KeysDiffer;
    var x :| Collects(m, network, streams, from, upto, x) && Sorted(x, desc) && a == Limited(x, limit);
    var y :| Collects(n, network, streams, from, upto, y) && Sorted(y, desc) && b == Limited(y, limit);
    assert Collects(m, network, streams, from, upto, y);
    if desc {
      ReversedSorts(x, true);
      ReversedSorts(y, true);
      ReversedKeepsEvents(x);
      ReversedKeepsEvents(y);
      ReversedTwice(x);
      ReversedTwice(y);
      SortedCollectionUnique(m, network, streams, from, upto, Reversed(x), Reversed(y));
    } else {
      SortedCollectionUnique(m, network, streams, from, upto, x, y);
    }
  }
}
