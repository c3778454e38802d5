/** One synchronization session between two daemon objects over a connection that may break at any
    frame: the initiator pushes what the responder lacks, then pulls what it lacks itself. */
module Sync {
  import opened Bytes
  import opened Listing
  import opened Hlc
  import opened Store
  import opened Ingest
  import opened Replication
  import opened Replica
  import opened Session
  import opened Convergence
  import opened PreserveBoth
  import opened KeyCodec
  import opened Inventory
  import opened Frames
  import opened DaemonObject

  datatype Delivery = Delivered | TooLong | Lost

  /** The authenticated connection: how long a frame is once encoded, and how many more frames get
      through before it breaks, unless it is one that delivers everything. */
  class Link {
    const size: Size
    const lossless: bool
    var frames: nat
    /** What has got through so far. */
    ghost var carried: seq<Frame>

    constructor (size: Size, lossless: bool, frames: nat)
      ensures this.size == size && this.lossless == lossless && this.frames == frames && carried == []
    {
      this.size := size;
      this.lossless := lossless;
      this.frames := frames;
      carried := [];
    }

    /** The writer refuses a frame beyond the limit, which ends the session for both sides. */
    method Carry(frame: Frame) returns (outcome: Delivery)
      modifies this
      ensures outcome == TooLong <==> !Fits(size, frame)
      ensures outcome == TooLong <==> size(frame) > 1_048_576
      ensures outcome == Lost <==> size(frame) <= 1_048_576 && !lossless && old(frames) == 0
      ensures frames == old(frames) - if outcome == Delivered && !lossless then 1 else 0
      ensures carried == if outcome == Delivered then old(carried) + [frame] else old(carried)
    {
      if size(frame) > FRAME_LIMIT {
        return TooLong;
      }
      if !lossless {
        if frames == 0 {
          return Lost;
        }
        frames := frames - 1;
      }
      carried := carried + [frame];
      outcome := Delivered;
    }
  }

  function Undelivered(outcome: Delivery): Failure {
    if outcome == TooLong then FrameTooLong else ConnectionLost
  }

  datatype Tally = Tally(created: nat, duplicates: nat)

  /** What a session reports to its caller. */
  datatype Report = Report(inventoried: nat, pushed: nat, pulled: nat, duplicates: nat, conflicts: seq<Text>)

  /** All digests have the size that a receiver of inventory pages demands. */
  ghost predicate Digested(h: Hashes, history: set<Event>) {
    forall e :: e in history ==> IsDigest(h.digest(e))
  }

  /** What must be true of a node that takes part in a session of a calm mesh. */
  ghost predicate Peer(d: Daemon, history: set<Event>)
    reads d
  {
    Member(d.h, history, d.State()) && Digested(d.h, history)
  }

  ghost predicate OutOfResource(f: Failure) {
    f == Refused(ClockFailed) || f == Refused(SequenceExhausted)
  }

  /** Failures that are not anybody's fault. */
  ghost predicate Excused(f: Failure) {
    f == ConnectionLost || f == FrameTooLong || OutOfResource(f)
  }

  /** How a failed exchange over this link can have failed. */
  ghost predicate FailsFor(link: Link, f: Failure) {
    Excused(f) && (link.lossless ==> f != ConnectionLost)
  }

  /****** Receiving a list of events ******/

  /** How many envelopes a received event adds beyond itself. */
  ghost function Extra(h: Hashes, m: map<Ref, Event>, e: Event): nat {
    if Parse(e).Resolves? && TargetOf(e) in m[RefOf(e) := e]
      && RefOf(Recover(h, m[RefOf(e) := e][TargetOf(e)])) !in m[RefOf(e) := e] then 1 else 0
  }

  lemma AbsorbSize(h: Hashes, m: map<Ref, Event>, e: Event)
    ensures |Absorb(h, m, e)| == |m| + (if RefOf(e) in m then 0 else 1) + Extra(h, m, e)
  {
  }

  /** A replica after it received these events one after the other. */
  ghost function AbsorbAll(h: Hashes, m: map<Ref, Event>, got: seq<Event>): map<Ref, Event> {
    if got == [] then m else Absorb(h, AbsorbAll(h, m, got[..|got| - 1]), got[|got| - 1])
  }

  /** How many of them were new when they were received. */
  ghost function Fresh(h: Hashes, m: map<Ref, Event>, got: seq<Event>): nat {
    if got == [] then 0
    else
      var front, e := got[..|got| - 1], got[|got| - 1];
      Fresh(h, m, front) + if RefOf(e) in AbsorbAll(h, m, front) then 0 else 1
  }

  /** How many variants were copied on the way. */
  ghost function CopiesMade(h: Hashes, m: map<Ref, Event>, got: seq<Event>): nat {
    if got == [] then 0
    else
      var front := got[..|got| - 1];
      CopiesMade(h, m, front) + Extra(h, AbsorbAll(h, m, front), got[|got| - 1])
  }

  /** The replica received exactly `got`, and `created` counts what was new. */
  ghost predicate Account(h: Hashes, m: map<Ref, Event>, got: seq<Event>, created: nat, now: map<Ref, Event>) {
    now == AbsorbAll(h, m, got) && created == Fresh(h, m, got)
  }

  lemma AccountOne(h: Hashes, m: map<Ref, Event>, got: seq<Event>, created: nat, now: map<Ref, Event>, e: Event)
    requires Account(h, m, got, created, now)
    ensures Account(h, m, got + [e], created + (if RefOf(e) in now then 0 else 1), Absorb(h, now, e))
  {
    hide Absorb;
    assert (got + [e])[..|got|] == got;
  }

  lemma {:induction false} AccountJoin(h: Hashes, m: map<Ref, Event>, got: seq<Event>, created: nat,
      mid: map<Ref, Event>,
      more: seq<Event>, extra: nat, now: map<Ref, Event>)
    requires Account(h, m, got, created, mid) && Account(h, mid, more, extra, now)
    ensures Account(h, m, got + more, created + extra, now)
    decreases |more|
  {
    hide Absorb;
    if more == [] {
      assert got + more == got;
    } else {
      var front, e := more[..|more| - 1], more[|more| - 1];
      AccountJoin(h, m, got, created, mid, front, Fresh(h, mid, front), AbsorbAll(h, mid, front));
      AccountOne(h, m, got + front, created + Fresh(h, mid, front), AbsorbAll(h, mid, front), e);
      assert got + front + [e] == got + more;
    }
  }

  /** A replica grows by exactly what was new and the copies made. */
  lemma {:induction false} AccountSize(h: Hashes, m: map<Ref, Event>, got: seq<Event>, created: nat,
      now: map<Ref, Event>)
    requires Account(h, m, got, created, now)
    ensures |now| == |m| + created + CopiesMade(h, m, got)
    decreases |got|
  {
    hide Absorb, Extra;
    if got != [] {
      var front := got[..|got| - 1];
      AccountSize(h, m, front, Fresh(h, m, front), AbsorbAll(h, m, front));
      AbsorbSize(h, AbsorbAll(h, m, front), got[|got| - 1]);
    }
  }

  lemma AccountNone(h: Hashes, m: map<Ref, Event>)
    ensures Account(h, m, [], 0, m)
  {
  }

  ghost function RefsOf(events: seq<Event>): set<Ref> {
    set e | e in events :: RefOf(e)
  }

  /** Events of an offer that the replica m lacks. */
  ghost predicate Wanted(m: map<Ref, Event>, offer: map<Ref, Event>, events: seq<Event>) {
    forall e :: e in events ==> RefOf(e) in offer && offer[RefOf(e)] == e && RefOf(e) !in m && Normalized(e)
  }

  lemma ReceiveOne(h: Hashes, history: set<Event>, n: Node, e: Event, walls: nat -> Instant, at: nat,
      m: map<Ref, Event>, offer: map<Ref, Event>, taken: set<Ref>)
    requires Member(h, history, n) && IsOffer(offer, history) && Holds(m, history)
    requires Merged(h, history, m, offer, taken, Events(n.store))
    requires RefOf(e) in offer && offer[RefOf(e)] == e && RefOf(e) !in m && Normalized(e)
    ensures var o := IngestReplicated(h, n, e, walls, at, 1);
      && !o.Diverged? && Member(h, history, o.node) && Grows(Events(n.store), Events(o.node.store), history)
      && (o.Failed? ==> o.error.ClockFailed? || o.error.SequenceExhausted?)
      && (o.Done? ==>
            && o.created == (RefOf(e) !in Events(n.store))
            && Merged(h, history, m, offer, taken + {RefOf(e)}, Events(o.node.store))
            && Events(o.node.store) == Absorb(h, Events(n.store), e))
  {
    hide PrimaryKeyed, IdsIndexed, ArrivalsIndexed, ClockCovers, Calm, Closed, Merged, Absorb, Extra;
    MergedStep(h, history, m, offer, taken, Events(n.store), RefOf(e));
    ReceiveIsAbsorb(h, history, n, e, walls, at, 1);
    var o := IngestReplicated(h, n, e, walls, at, 1);
    if o.Done? {
      MergedGrows(h, history, m, offer, taken, Events(n.store), e);
    }
  }

  lemma MergedGrows(h: Hashes, history: set<Event>, m: map<Ref, Event>, offer: map<Ref, Event>, taken: set<Ref>,
      now: map<Ref, Event>, e: Event)
    requires Calm(h, history) && Closed(h, history) && e in history && Holds(now, history)
    requires Holds(Absorb(h, now, e), history)
    requires RefOf(e) in now ==> now[RefOf(e)] == e
    ensures Grows(now, Absorb(h, now, e), history)
  {
    hide Genuine, CollisionFree;
    var stored := now[RefOf(e) := e];
    if Parse(e).Resolves? && TargetOf(e) in stored {
      CopyStep(h, history, stored, stored, e);
    }
  }

  /** The loop over received events, the same on both ends of a session. */
  method ReceiveAll(d: Daemon, events: seq<Event>, walls: nat -> Instant, at: nat,
      ghost history: set<Event>, ghost m: map<Ref, Event>, ghost offer: map<Ref, Event>, ghost taken: set<Ref>)
    returns (r: Result<Tally>, next: nat, ghost got: seq<Event>)
    requires Member(d.h, history, d.State()) && IsOffer(offer, history) && Holds(m, history)
    requires Merged(d.h, history, m, offer, taken, d.Held()) && Wanted(m, offer, events)
    modifies d
    ensures Member(d.h, history, d.State()) && Grows(old(d.Held()), d.Held(), history)
    ensures r.Ok? ==> Merged(d.h, history, m, offer, taken + RefsOf(events), d.Held())
    ensures r.Ok? ==> r.value.created + r.value.duplicates == |events| == |got|
    ensures r.Ok? ==> Account(d.h, old(d.Held()), got, r.value.created, d.Held())
    ensures r.Err? ==> OutOfResource(r.failure)
  {
    hide Member, Merged, IsOffer, Holds, Events, Grows, Account, Absorb;
    next, got := at, [];
    var created, duplicates := 0, 0;
    var i := 0;
    ghost var start := d.Held();
    GrowsReflexive(d.h, history, d.State());
    AccountNone(d.h, start);
    assert taken + RefsOf(events[..0]) == taken;
    while i < |events|
      invariant 0 <= i <= |events|
      invariant Member(d.h, history, d.State()) && Grows(start, d.Held(), history)
      invariant Merged(d.h, history, m, offer, taken + RefsOf(events[..i]), d.Held())
      invariant created + duplicates == i == |got| && Account(d.h, start, got, created, d.Held())
    {
      ghost var n := d.State();
      ReceiveOne(d.h, history, n, events[i], walls, next, m, offer, taken + RefsOf(events[..i]));
      AccountOne(d.h, start, got, created, d.Held(), events[i]);
      got := got + [events[i]];
      var stored := d.IngestReplicated(events[i], walls, next, 1);
      GrowsTransitive(start, Events(n.store), d.Held(), history);
      if stored.Err? {
        return Err(stored.failure), next, got;
      }
      if stored.value.created {
        created := created + 1;
      } else {
        duplicates := duplicates + 1;
      }
      assert taken + RefsOf(events[..i + 1]) == taken + RefsOf(events[..i]) + {RefOf(events[i])} by {
        RefsOfStep(events, i);
      }
      next := next + 2;
      i := i + 1;
    }
    assert events[..i] == events;
    r := Ok(Tally(created, duplicates));
  }

  lemma RefsOfStep(events: seq<Event>, i: nat)
    requires i < |events|
    ensures RefsOf(events[..i + 1]) == RefsOf(events[..i]) + {RefOf(events[i])}
  {
    assert events[..i + 1] == events[..i] + [events[i]];
  }

  lemma GrowsReflexive(h: Hashes, history: set<Event>, n: Node)
    requires Member(h, history, n)
    ensures Grows(Events(n.store), Events(n.store), history)
  {
  }

  lemma GrowsTransitive(m: map<Ref, Event>, n: map<Ref, Event>, o: map<Ref, Event>, history: set<Event>)
    requires Grows(m, n, history) && Grows(n, o, history)
    ensures Grows(m, o, history)
  {
  }

  /****** One page ******/

  /** Page entries that arrived as copies before they were compared count as received. */
  lemma SkipHeld(h: Hashes, history: set<Event>, m: map<Ref, Event>, offer: map<Ref, Event>, taken: set<Ref>,
      now: map<Ref, Event>, skipped: set<Ref>)
    requires Calm(h, history) && Closed(h, history) && Holds(m, history) && IsOffer(offer, history)
    requires Merged(h, history, m, offer, taken, now)
    requires forall x :: x in skipped ==> x in offer && x !in m && x in now
    ensures Merged(h, history, m, offer, taken + skipped, now)
  {
    hide Calm, Closed, IsOffer;
    forall x | x in skipped ensures now[x] == offer[x] && (x !in taken ==> !Parse(offer[x]).Resolves?) {
      SkipOne(h, history, m, offer, taken, now, x);
    }
  }

  lemma SkipOne(h: Hashes, history: set<Event>, m: map<Ref, Event>, offer: map<Ref, Event>, taken: set<Ref>,
      now: map<Ref, Event>, x: Ref)
    requires Calm(h, history) && Closed(h, history) && Holds(m, history) && IsOffer(offer, history)
    requires Merged(h, history, m, offer, taken, now) && x in offer && x !in m && x in now
    ensures now[x] == offer[x] && (x !in taken ==> !Parse(offer[x]).Resolves?)
  {
    hide Calm, Closed;
    NowAgrees(h, history, m, offer, taken, now, x);
    if x !in taken {
      CopyIsPlain(h, history, m, offer, taken, now, x);
    }
  }

  /** A comparison in the middle of a session reports what one at its start would have. */
  lemma ConflictsOfPage(h: Hashes, history: set<Event>, m: map<Ref, Event>, offer: map<Ref, Event>, taken: set<Ref>,
      s: Store,
      network: Text, entries: seq<Entry>, id: Text)
    requires Calm(h, history) && Closed(h, history) && Holds(m, history) && IsOffer(offer, history) && Valid(s)
    requires Merged(h, history, m, offer, taken, Events(s)) && Describes(h, offer, network, entries)
    ensures id in IdsOf(ConflictEntries(h, s, network, entries)) <==>
      Ref(network, id) in PageRefs(network, entries) && Ref(network, id) in Conflicts(offer, m)
  {
    hide PrimaryKeyed, IdsIndexed, ArrivalsIndexed, ClockCovers, Closed, Events, Genuine, Undisputed;
    ConflictEntriesExact(h, s, network, entries);
    var conflicts := ConflictEntries(h, s, network, entries);
    var r := Ref(network, id);
    if id in IdsOf(conflicts) {
      var i :| 0 <= i < |conflicts| && IdsOf(conflicts)[i] == id;
      assert conflicts[i] in entries;
      var j :| 0 <= j < |entries| && entries[j] == conflicts[i];
      if r !in m {
        NowAgrees(h, history, m, offer, taken, Events(s), r);
      }
    }
    if r in PageRefs(network, entries) && r in Conflicts(offer, m) {
      var e :| e in entries && Ref(network, e.id) == r;
      var j :| 0 <= j < |entries| && entries[j] == e;
      assert e in conflicts;
      var i :| 0 <= i < |conflicts| && conflicts[i] == e;
      assert IdsOf(conflicts)[i] == id;
    }
  }

  lemma PageRefsNamed(network: Text, entries: seq<Entry>)
    ensures forall r: Ref :: r in PageRefs(network, entries) <==> r.network == network && Names(entries, r.id)
  {
    forall r: Ref | r.network == network && Names(entries, r.id) ensures r in PageRefs(network, entries) {
      var i :| 0 <= i < |entries| && entries[i].id == r.id;
      assert entries[i] in entries;
    }
    forall r | r in PageRefs(network, entries) ensures r.network == network && Names(entries, r.id) {
      var e :| e in entries && Ref(network, e.id) == r;
      var i :| 0 <= i < |entries| && entries[i] == e;
      assert entries[i].id == r.id;
    }
  }

  /** The events fetched for the missing IDs of a page are those the receiver wants. */
  lemma FetchedAreWanted(s: Store, sender: Node, network: Text, m: map<Ref, Event>, entries: seq<Entry>,
      events: seq<Event>)
    requires Valid(s) && Valid(sender.store) && IdsAscend(entries)
    requires forall x :: x in m ==> x in Events(s)
    requires PageRefs(network, entries) <= Visible(Events(sender.store), network).Keys
    requires var missing := MissingIds(s, network, entries);
      |events| == |missing| && forall i :: 0 <= i < |missing| ==>
        Ref(network, missing[i]) in Events(sender.store) && events[i] == Events(sender.store)[Ref(network, missing[i])]
    ensures Wanted(m, Visible(Events(sender.store), network), events)
    ensures RefsOf(events) == PageRefs(network, entries) - Events(s).Keys
    ensures EventIds(events) == MissingIds(s, network, entries)
    ensures AreRequested(network, MissingIds(s, network, entries), events)
    ensures forall i :: 0 <= i < |events| ==> events[i].network == network && Normalized(events[i])
  {
    hide Valid, Events, Superseded, MissingIds, IdsAscend, PageRefs;
    var missing := MissingIds(s, network, entries);
    MissingIdsExact(s, network, entries);
    PageRefsNamed(network, entries);
    forall i | 0 <= i < |events|
      ensures RefOf(events[i]) == Ref(network, missing[i]) && Normalized(events[i]) && missing[i] in missing
      ensures RefOf(events[i]) in PageRefs(network, entries) - Events(s).Keys
    {
      FindIsEvents(sender.store, Ref(network, missing[i]));
      assert missing[i] in missing;
    }
    forall x | x in PageRefs(network, entries) - Events(s).Keys ensures x in RefsOf(events) {
      assert x.id in missing;
      var i :| 0 <= i < |missing| && missing[i] == x.id;
      assert events[i] in events;
    }
    assert EventIds(events) == missing;
  }

  ghost predicate AcceptablePush(network: Text, events: seq<Event>) {
    0 < |events| <= MAX_PAGE_SIZE && forall e :: e in events ==> Normalized(e) && e.network == network
  }

  /** The responder's side of a push: the whole page is checked before any of it is stored. */
  method ServePush(d: Daemon, network: Text, events: seq<Event>, walls: nat -> Instant, at: nat,
      ghost history: set<Event>, ghost m: map<Ref, Event>, ghost offer: map<Ref, Event>, ghost taken: set<Ref>)
    returns (r: Result<Tally>, next: nat, ghost got: seq<Event>)
    requires Member(d.h, history, d.State()) && IsOffer(offer, history) && Holds(m, history)
    requires Merged(d.h, history, m, offer, taken, d.Held())
    requires AcceptablePush(network, events) ==> Wanted(m, offer, events)
    modifies d
    ensures Member(d.h, history, d.State()) && Grows(old(d.Held()), d.Held(), history)
    ensures !AcceptablePush(network, events) ==> d.State() == old(d.State()) && r == Err(InvalidRequest)
    ensures r == Err(InvalidRequest) <==>
      || events == [] || |events| > 128
      || exists e :: e in events && (
           || e.network != network || e.id == [] || e.network == [] || e.stream == [] || e.device == []
           || e.occurredAt == 0 || e.insertedAt == 0 || e.propagatedAt == 0)
    ensures AcceptablePush(network, events) && r.Err? ==> OutOfResource(r.failure)
    ensures r.Ok? ==> Merged(d.h, history, m, offer, taken + RefsOf(events), d.Held())
    ensures r.Ok? ==> r.value.created + r.value.duplicates == |events| == |got|
    ensures r.Ok? ==> Account(d.h, old(d.Held()), got, r.value.created, d.Held())
  {
    hide Member, Merged, IsOffer, Holds, Events, Grows, Wanted;
    GrowsReflexive(d.h, history, d.State());
    if |events| == 0 || |events| > MAX_PAGE_SIZE {
      return Err(InvalidRequest), at, [];
    }
    var i := 0;
    while i < |events|
      invariant 0 <= i <= |events| && d.State() == old(d.State())
      invariant forall j :: 0 <= j < i ==> Normalized(events[j]) && events[j].network == network
    {
      if !Normalized(events[i]) || events[i].network != network {
        assert events[i] in events;
        return Err(InvalidRequest), at, [];
      }
      i := i + 1;
    }
    r, next, got := ReceiveAll(d, events, walls, at, history, m, offer, taken);
  }

  /** What has been exchanged so far: `taken` says which references of the offer were passed. */
  ghost predicate Exchanged(h: Hashes, history: set<Event>, m: map<Ref, Event>, offer: map<Ref, Event>,
      passed: set<Ref>, now: Node) {
    && Member(h, history, now) && IsOffer(offer, history) && Holds(m, history)
    && Merged(h, history, m, offer, passed - m.Keys, Events(now.store))
  }

  /** A comparison leaves what a node holds alone. */
  lemma ComparedStillMember(h: Hashes, history: set<Event>, n: Node, observed: set<Observation>)
    requires Member(h, history, n)
    ensures Member(h, history, n.(store := n.store.(observed := observed)))
    ensures Events(n.store.(observed := observed)) == Events(n.store)
  {
    hide PrimaryKeyed, IdsIndexed, ArrivalsIndexed, ClockCovers, Calm, Closed;
    SideTablesKeepValid(n.store, n.store.siphons, observed);
    assert Events(n.store.(observed := observed)) == Events(n.store);
  }

  /** What the receiver of a page finds out by comparing it, and what that leaves to be fetched. */
  lemma PageCompared(h: Hashes, history: set<Event>, m: map<Ref, Event>, passed: set<Ref>, now: Node, sender: Node,
      network: Text, entries: seq<Entry>)
    requires Exchanged(h, history, m, Visible(Events(sender.store), network), passed, now)
    requires ValidEntries(entries) && Describes(h, Visible(Events(sender.store), network), network, entries)
    ensures forall id :: id in IdsOf(ConflictEntries(h, now.store, network, entries)) <==>
      Ref(network, id) in PageRefs(network, entries)
        && Ref(network, id) in Conflicts(Visible(Events(sender.store), network), m)
    ensures var missing := MissingIds(now.store, network, entries);
      && (missing != [] ==> ValidIds(missing))
      && (forall i :: 0 <= i < |missing| ==> Ref(network, missing[i]) in Events(sender.store))
      && (missing == [] ==>
        Exchanged(h, history, m, Visible(Events(sender.store), network), passed + PageRefs(network, entries), now))
  {
    hide PrimaryKeyed, IdsIndexed, ArrivalsIndexed, ClockCovers, Calm, Closed, Merged, Events, IsOffer, Holds, Visible,
        Conflicts;
    var offer := Visible(Events(sender.store), network);
    forall id ensures id in IdsOf(ConflictEntries(h, now.store, network, entries)) <==>
      Ref(network, id) in PageRefs(network, entries) && Ref(network, id) in Conflicts(offer, m)
    {
      ConflictsOfPage(h, history, m, offer, passed - m.Keys, now.store, network, entries, id);
    }
    MissingFacts(h, now.store, sender, network, entries);
    if MissingIds(now.store, network, entries) == [] {
      DescribedRefs(h, sender, network, entries);
      PageSkipped(h, history, m, offer, passed, now, PageRefs(network, entries));
      assert PageRefs(network, entries) * Events(now.store).Keys == PageRefs(network, entries);
    }
  }

  lemma DescribedRefs(h: Hashes, sender: Node, network: Text, entries: seq<Entry>)
    requires Describes(h, Visible(Events(sender.store), network), network, entries)
    ensures PageRefs(network, entries) <= Visible(Events(sender.store), network).Keys
  {
    hide Superseded, Events;
    forall e | e in entries ensures Ref(network, e.id) in Visible(Events(sender.store), network) {
      var i :| 0 <= i < |entries| && entries[i] == e;
    }
  }

  lemma MissingFacts(h: Hashes, s: Store, sender: Node, network: Text, entries: seq<Entry>)
    requires Valid(s) && ValidEntries(entries) && Describes(h, Visible(Events(sender.store), network), network, entries)
    ensures var missing := MissingIds(s, network, entries);
      && (missing != [] ==> ValidIds(missing))
      && (forall i :: 0 <= i < |missing| ==> Ref(network, missing[i]) in Events(sender.store))
      && (missing == [] ==> PageRefs(network, entries) <= Events(s).Keys)
  {
    hide PrimaryKeyed, IdsIndexed, ArrivalsIndexed, ClockCovers, Events, Superseded;
    var missing := MissingIds(s, network, entries);
    MissingIdsExact(s, network, entries);
    forall i | 0 <= i < |missing| ensures missing[i] != [] && Ref(network, missing[i]) in Events(sender.store) {
      assert missing[i] in missing;
      var j :| 0 <= j < |entries| && entries[j].id == missing[i];
    }
    if missing == [] {
      forall e | e in entries ensures Ref(network, e.id) in Events(s) {
        var j :| 0 <= j < |entries| && entries[j] == e;
        assert Names(entries, e.id);
      }
    }
  }

  lemma PageSkipped(h: Hashes, history: set<Event>, m: map<Ref, Event>, offer: map<Ref, Event>, passed: set<Ref>,
      now: Node, refs: set<Ref>)
    requires Exchanged(h, history, m, offer, passed, now) && refs <= offer.Keys
    ensures Merged(h, history, m, offer, (passed + refs * Events(now.store).Keys) - m.Keys, Events(now.store))
    ensures forall x :: x in m ==> x in Events(now.store)
  {
    hide Calm, Closed, IsOffer, Holds, ValidNode;
    var skipped := refs * Events(now.store).Keys - m.Keys;
    SkipHeld(h, history, m, offer, passed - m.Keys, Events(now.store), skipped);
    assert (passed - m.Keys) + skipped == (passed + refs * Events(now.store).Keys) - m.Keys;
  }

  /** What was fetched for a compared page is what the receiver still lacks of it. */
  lemma PageFetched(h: Hashes, history: set<Event>, m: map<Ref, Event>, passed: set<Ref>, now: Node, sender: Node,
      network: Text, entries: seq<Entry>,
      events: seq<Event>)
    requires Exchanged(h, history, m, Visible(Events(sender.store), network), passed, now) && Valid(sender.store)
    requires ValidEntries(entries) && Describes(h, Visible(Events(sender.store), network), network, entries)
    requires var missing := MissingIds(now.store, network, entries);
      && ValidIds(missing) && |events| == |missing|
      && forall i :: 0 <= i < |missing| ==>
           Ref(network, missing[i]) in Events(sender.store)
             && events[i] == Events(sender.store)[Ref(network, missing[i])]
    ensures var refs := PageRefs(network, entries);
      var offer := Visible(Events(sender.store), network);
      && Wanted(m, offer, events) && AcceptablePush(network, events)
      && AreRequested(network, MissingIds(now.store, network, entries), events)
      && Merged(h, history, m, offer, (passed + refs * Events(now.store).Keys) - m.Keys, Events(now.store))
      && ((passed + refs * Events(now.store).Keys) - m.Keys) + RefsOf(events) == (passed + refs) - m.Keys
  {
    hide PrimaryKeyed, IdsIndexed, ArrivalsIndexed, ClockCovers, Calm, Closed, Merged, Events, IsOffer, Holds, Visible,
        AreRequested, Wanted;
    DescribedRefs(h, sender, network, entries);
    PageSkipped(h, history, m, Visible(Events(sender.store), network), passed, now, PageRefs(network, entries));
    FetchedAreWanted(now.store, sender, network, m, entries, events);
  }

  /** What a comparison in the middle of a transfer finds is decided by the replicas at its start. */
  lemma PageNeeds(h: Hashes, history: set<Event>, m: map<Ref, Event>, passed: set<Ref>, now: Node, sender: Node,
      network: Text, entries: seq<Entry>)
    requires Exchanged(h, history, m, Visible(Events(sender.store), network), passed, now)
    requires Describes(h, Visible(Events(sender.store), network), network, entries)
    ensures MissingIds(now.store, network, entries)
      == LackedIds(network, entries, HeldAfter(h, m, Visible(Events(sender.store), network), passed))
    ensures IdsOf(ConflictEntries(h, now.store, network, entries)) == Differing(h, network, entries, m)
  {
    hide Valid, Calm, Closed, IsOffer, Visible, Events, Describes;
    var offer := Visible(Events(sender.store), network);
    ExchangedHolds(h, history, m, offer, passed, now);
    MissingIsLacking(now.store, network, entries);
    ConflictsAreDiffering(h, now.store, network, entries);
    DifferingFromStart(h, network, entries, m, Events(now.store), offer);
  }

  lemma ExchangedHolds(h: Hashes, history: set<Event>, m: map<Ref, Event>, offer: map<Ref, Event>, passed: set<Ref>,
      now: Node)
    requires Exchanged(h, history, m, offer, passed, now)
    ensures Valid(now.store) && Events(now.store).Keys == HeldAfter(h, m, offer, passed)
    ensures forall r :: r in m ==> r in Events(now.store) && Events(now.store)[r] == m[r]
    ensures forall r :: r in offer && r in Events(now.store) && r !in m ==> Events(now.store)[r] == offer[r]
  {
    hide Valid, Calm, Closed, Events;
    assert passed * offer.Keys - m.Keys == passed - m.Keys;
    forall r | r in offer && r in Events(now.store) && r !in m ensures Events(now.store)[r] == offer[r] {
      NowAgrees(h, history, m, offer, passed - m.Keys, Events(now.store), r);
    }
  }

  /** A page that does not fit now will not fit in a later transfer either: what the receiver has got by
      then, it has still got. */
  lemma WillNotFit(push: bool, h: Hashes, history: set<Event>, size: Size, m: map<Ref, Event>, passed: set<Ref>,
      now: Node, sender: Node, network: Text, pages: seq<Page>, cursor: Text, page: Page)
    requires Exchanged(h, history, m, Visible(Events(sender.store), network), passed, now)
    requires Walked(push, h, size, network, Events(sender.store), m, pages, passed, cursor)
    requires IsPage(h, Events(sender.store), network, cursor, PAGE_SIZE, page)
    requires !PageFits(push, h, size, network, Events(sender.store), m, cursor, page, passed)
    ensures !TransferFits(push, h, size, network, Events(sender.store), m)
    ensures !TransferFits(push, h, size, network, Events(sender.store), Events(now.store))
  {
    hide Valid, Calm, Closed, IsOffer, Visible, Events, PageFits, Exchanged, TransferFits, LastFits;
    var offer := Visible(Events(sender.store), network);
    ExchangedHolds(h, history, m, offer, passed, now);
    PageDescribed(h, Events(sender.store), network, cursor, page);
    StillDoesNotFit(push, h, size, network, Events(sender.store), m, Events(now.store), cursor, page, passed);
    WalkStops(push, h, size, network, Events(sender.store), m, m, pages, passed, cursor, page);
    WalkStops(push, h, size, network, Events(sender.store), m, Events(now.store), pages, passed, cursor, page);
  }

  lemma PageDescribed(h: Hashes, m: map<Ref, Event>, network: Text, cursor: Text, page: Page)
    requires IsPage(h, m, network, cursor, PAGE_SIZE, page)
    ensures Describes(h, Visible(m, network), network, page.entries)
  {
  }

  datatype Moved = Moved(created: nat, duplicates: nat, conflicts: seq<Text>)

  lemma PushNeeds(h: Hashes, history: set<Event>, size: Size, m: map<Ref, Event>, passed: set<Ref>, now: Node,
      sender: Node, network: Text, cursor: Text, page: Page)
    requires Exchanged(h, history, m, Visible(Events(sender.store), network), passed, now)
    requires Describes(h, Visible(Events(sender.store), network), network, page.entries) && ValidEntries(page.entries)
    ensures var ids := MissingIds(now.store, network, page.entries);
      var conflicts := IdsOf(ConflictEntries(h, now.store, network, page.entries));
      PageFits(true, h, size, network, Events(sender.store), m, cursor, page, passed) <==>
        && Fits(size, Offer(page.entries)) && Fits(size, Need(ids, conflicts))
        && FetchFits(true, size, network, Events(sender.store), ids)
  {
    hide Exchanged, Describes, Visible, Events, FetchFits, LackedIds, Differing, HeldAfter, MissingIds, ConflictEntries;
    PageNeeds(h, history, m, passed, now, sender, network, page.entries);
  }

  lemma ExchangedMember(h: Hashes, history: set<Event>, m: map<Ref, Event>, offer: map<Ref, Event>, passed: set<Ref>,
      now: Node)
    requires Exchanged(h, history, m, offer, passed, now)
    ensures Member(h, history, now) && Grows(Events(now.store), Events(now.store), history)
    ensures Valid(now.store) && IsOffer(offer, history) && Holds(m, history)
  {
    GrowsReflexive(h, history, now);
  }

  /** A comparison changes only what was observed. */
  lemma StillExchanged(h: Hashes, history: set<Event>, m: map<Ref, Event>, offer: map<Ref, Event>, passed: set<Ref>,
      now: Node, compared: Node)
    requires Exchanged(h, history, m, offer, passed, now) && Member(h, history, compared)
    requires Events(compared.store) == Events(now.store)
    ensures Exchanged(h, history, m, offer, passed, compared)
  {
  }

  /** The receiver has merged the whole page. */
  lemma PageMerged(h: Hashes, history: set<Event>, m: map<Ref, Event>, offer: map<Ref, Event>, passed: set<Ref>,
      now: Node)
    requires Member(h, history, now) && IsOffer(offer, history) && Holds(m, history)
    requires Merged(h, history, m, offer, passed - m.Keys, Events(now.store))
    ensures Exchanged(h, history, m, offer, passed, now)
  {
  }

  /** How the round of one page ended: well, if all its frames fit, or with a frame beyond the limit, and
      then the receiver holds what it held. */
  ghost predicate Decided(link: Link, fits: bool, r: Result<Moved>, before: map<Ref, Event>, now: map<Ref, Event>) {
    && (r.Err? ==> FailsFor(link, r.failure))
    && (r.Ok? ==> fits)
    && (r == Err(FrameTooLong) ==> !fits && now == before)
  }

  /** The frames of one round of a push: the page, the answer of what is missing and what differs, and, if
      anything is missing, its events in that order and the acknowledgement. */
  ghost predicate PushRound(h: Hashes, network: Text, sender: map<Ref, Event>, receiver: Store, entries: seq<Entry>,
      created: nat, before: seq<Frame>, after: seq<Frame>) {
    var ids := MissingIds(receiver, network, entries);
    var conflicts := IdsOf(ConflictEntries(h, receiver, network, entries));
    if ids == [] then after == before + [Offer(entries), Need(ids, conflicts)]
    else exists events ::
      && IsFetch(sender, network, ids, events)
      && after == before + [Offer(entries), Need(ids, conflicts), Push(events), Ack(|events|, created)]
  }

  /** The frames of one round of a pull: the request for the page, the page, and, if any of it is missing,
      the request for the missing events and those events in that order. */
  ghost predicate PullFrames(network: Text, sender: map<Ref, Event>, receiver: Store, cursor: Text, page: Page,
      before: seq<Frame>, after: seq<Frame>) {
    var ids := MissingIds(receiver, network, page.entries);
    if ids == [] then after == before + [PageRequest(cursor), PageAnswer(page)]
    else exists events ::
      && IsFetch(sender, network, ids, events)
      && after == before + [PageRequest(cursor), PageAnswer(page), EventsRequest(ids), EventsAnswer(events)]
  }

  lemma RoundPushed(h: Hashes, network: Text, sender: map<Ref, Event>, receiver: Store, entries: seq<Entry>,
      events: seq<Event>, created: nat, before: seq<Frame>, after: seq<Frame>)
    requires var ids := MissingIds(receiver, network, entries);
      var offered := before + [Offer(entries)] + [Need(ids, IdsOf(ConflictEntries(h, receiver, network, entries)))];
      if ids == [] then after == offered
      else IsFetch(sender, network, ids, events) && after == offered + [Push(events)] + [Ack(|events|, created)]
    ensures PushRound(h, network, sender, receiver, entries, created, before, after)
  {
    hide IsFetch, MissingIds, ConflictEntries;
    var ids := MissingIds(receiver, network, entries);
    if ids != [] {
      var need := Need(ids, IdsOf(ConflictEntries(h, receiver, network, entries)));
      assert after == before + [Offer(entries), need, Push(events), Ack(|events|, created)];
    }
  }

  lemma RoundPulled(network: Text, sender: map<Ref, Event>, receiver: Store, cursor: Text, page: Page,
      before: seq<Frame>, asked: seq<Frame>, after: seq<Frame>)
    requires asked == before + [PageRequest(cursor)] + [PageAnswer(page)]
    requires FetchedFrames(network, sender, MissingIds(receiver, network, page.entries), asked, after)
    ensures PullFrames(network, sender, receiver, cursor, page, before, after)
  {
    hide IsFetch, MissingIds;
    var ids := MissingIds(receiver, network, page.entries);
    if ids != [] {
      var events :|
        IsFetch(sender, network, ids, events) && after == asked + [EventsRequest(ids)] + [EventsAnswer(events)];
      assert after == before + [PageRequest(cursor), PageAnswer(page), EventsRequest(ids), EventsAnswer(events)];
    }
  }

  ghost predicate FetchedFrames(network: Text, sender: map<Ref, Event>, ids: seq<Text>, before: seq<Frame>,
      after: seq<Frame>) {
    if ids == [] then after == before
    else exists events ::
      && IsFetch(sender, network, ids, events)
      && after == before + [EventsRequest(ids)] + [EventsAnswer(events)]
  }

  lemma FetchCarried(network: Text, sender: map<Ref, Event>, ids: seq<Text>, events: seq<Event>, before: seq<Frame>,
      after: seq<Frame>)
    requires ids == [] ==> after == before
    requires ids != [] ==>
      IsFetch(sender, network, ids, events) && after == before + [EventsRequest(ids)] + [EventsAnswer(events)]
    ensures FetchedFrames(network, sender, ids, before, after)
  {
  }

  /** One round of the push: offer a page, learn what the responder needs, push it. */
  method PushPage(a: Daemon, b: Daemon, link: Link, network: Text, page: Page, walls: nat -> Instant, at: nat,
      ghost history: set<Event>, ghost m: map<Ref, Event>, ghost passed: set<Ref>, ghost cursor: Text)
    returns (r: Result<Moved>, next: nat, ghost got: seq<Event>)
    requires a != b && a.h == b.h && Valid(a.store) && ShortAcks(link.size)
    requires Exchanged(b.h, history, m, Visible(a.Held(), network), passed, b.State())
    requires ValidEntries(page.entries) && Describes(a.h, Visible(a.Held(), network), network, page.entries)
    modifies b, link
    ensures Member(b.h, history, b.State()) && Grows(old(b.Held()), b.Held(), history)
    ensures Decided(link, PageFits(true, b.h, link.size, network, a.Held(), m, cursor, page, passed),
      r, old(b.Held()), b.Held())
    ensures r.Ok? ==>
      PageDone(b.h, history, network, Visible(a.Held(), network), m,
        passed, page.entries, old(b.State()), b.State(), got, r.value)
    ensures r.Ok? ==> PushRound(b.h, network, a.Held(), old(b.store), page.entries, r.value.created,
      old(link.carried), link.carried)
  {
    hide PushRound, IsFetch;
    hide PrimaryKeyed, IdsIndexed, ArrivalsIndexed, ClockCovers, Merged, IsOffer, Holds, Events, Grows, Visible, Calm,
        Closed, Describes, ValidEntries, Wanted, Conflicts, AreRequested, AcceptablePush, ValidIds, PageRefs, PageFits,
        FetchFits, ShortAcks, MissingIds, ConflictEntries, Valid, Member, Exchanged, Account, Fits;
    ghost var start, offer := b.State(), Visible(a.Held(), network);
    var entries := page.entries;
    next, got := at, [];
    ExchangedMember(b.h, history, m, offer, passed, start);
    GrowsReflexive(b.h, history, start);
    PageCompared(b.h, history, m, passed, start, a.State(), network, entries);
    PushNeeds(b.h, history, link.size, m, passed, start, a.State(), network, cursor, page);
    var sent := link.Carry(Offer(entries));
    if sent != Delivered {
      return Err(Undelivered(sent)), next, got;
    }
    var compared := b.CompareInventory(network, entries);
    ComparedStillMember(b.h, history, start, b.store.observed);
    assert b.State() == start.(store := start.store.(observed := b.store.observed));
    var missing := compared.value.missing;
    sent := link.Carry(Need(missing, compared.value.conflicts));
    if sent != Delivered {
      return Err(Undelivered(sent)), next, got;
    }
    if missing == [] {
      NothingToFetch(true, link.size, network, a.Held());
      StillExchanged(b.h, history, m, offer, passed + PageRefs(network, entries), start, b.State());
      AccountNone(b.h, Events(start.store));
      RoundPushed(b.h, network, a.Held(), start.store, entries, [], 0, old(link.carried), link.carried);
      r := Ok(Moved(0, 0, compared.value.conflicts));
    } else {
      ghost var events: seq<Event> := [];
      r, next, got, events := PushMissing(a, b, link, network, entries, missing, compared.value.conflicts, walls, next,
        history, m, passed, start);
      if r.Ok? {
        RoundPushed(b.h, network, a.Held(), start.store, entries, events, r.value.created,
          old(link.carried), link.carried);
      }
    }
  }

  /** The second half of a round of the push: what the responder needs is fetched, sent and stored there. */
  method PushMissing(a: Daemon, b: Daemon, link: Link, network: Text, entries: seq<Entry>, missing: seq<Text>,
      conflicts: seq<Text>, walls: nat -> Instant, at: nat, ghost history: set<Event>, ghost m: map<Ref, Event>,
      ghost passed: set<Ref>, ghost start: Node)
    returns (r: Result<Moved>, next: nat, ghost got: seq<Event>, ghost events: seq<Event>)
    requires a != b && a.h == b.h && Valid(a.store) && ShortAcks(link.size)
    requires Exchanged(b.h, history, m, Visible(a.Held(), network), passed, start)
    requires ValidEntries(entries) && Describes(a.h, Visible(a.Held(), network), network, entries)
    requires missing == MissingIds(start.store, network, entries) && missing != []
    requires Member(b.h, history, b.State()) && b.Held() == Events(start.store)
    modifies b, link
    ensures Member(b.h, history, b.State()) && Grows(old(b.Held()), b.Held(), history)
    ensures Decided(link, FetchFits(true, link.size, network, a.Held(), missing), r, old(b.Held()), b.Held())
    ensures r.Ok? ==>
      && Exchanged(b.h, history, m, Visible(a.Held(), network), passed + PageRefs(network, entries), b.State())
      && Account(b.h, old(b.Held()), got, r.value.created, b.Held())
      && r.value.created + r.value.duplicates == |got| && r.value.conflicts == conflicts
      && IsFetch(a.Held(), network, missing, events)
      && link.carried == old(link.carried) + [Push(events)] + [Ack(|events|, r.value.created)]
  {
    hide PrimaryKeyed, IdsIndexed, ArrivalsIndexed, ClockCovers, Merged, IsOffer, Holds, Events, Grows, Visible, Calm,
        Closed, Describes, ValidEntries, Wanted, Conflicts, AreRequested, AcceptablePush, ValidIds, PageRefs, FetchFits,
        ShortAcks, MissingIds, ConflictEntries, Valid, Member, Exchanged, Account, Fits, IsFetch;
    next, got := at, [];
    GrowsReflexive(b.h, history, b.State());
    ExchangedMember(b.h, history, m, Visible(a.Held(), network), passed, start);
    PageCompared(b.h, history, m, passed, start, a.State(), network, entries);
    var fetched := a.EventsByIDs(network, missing);
    events := fetched.value;
    WasFetched(a.Held(), network, missing, events);
    PageFetched(b.h, history, m, passed, start, a.State(), network, entries, events);
    FetchFitsIff(true, link.size, network, a.Held(), missing, events);
    var sent := link.Carry(Push(fetched.value));
    if sent != Delivered {
      return Err(Undelivered(sent)), next, got, events;
    }
    var stored: Result<Tally>;
    stored, next, got := ServePush(b, network, fetched.value, walls, next, history, m, Visible(a.Held(), network),
      (passed + PageRefs(network, entries) * Events(start.store).Keys) - m.Keys);
    if stored.Err? {
      return Err(stored.failure), next, got, events;
    }
    PageMerged(b.h, history, m, Visible(a.Held(), network), passed + PageRefs(network, entries), b.State());
    AckFits(link.size, network, events, stored.value);
    sent := link.Carry(Ack(|fetched.value|, stored.value.created));
    if sent != Delivered {
      return Err(Undelivered(sent)), next, got, events;
    }
    r := Ok(Moved(stored.value.created, stored.value.duplicates, conflicts));
  }

  lemma WasFetched(sender: map<Ref, Event>, network: Text, ids: seq<Text>, events: seq<Event>)
    requires |events| == |ids| && forall i :: 0 <= i < |ids| ==>
      Ref(network, ids[i]) in sender && events[i] == sender[Ref(network, ids[i])]
    ensures IsFetch(sender, network, ids, events)
  {
  }

  /** The initiator's side of a pull: what came is stored only if it is exactly what was asked for. */
  method StoreFetched(d: Daemon, network: Text, ids: seq<Text>, events: seq<Event>, walls: nat -> Instant, at: nat,
      ghost history: set<Event>, ghost m: map<Ref, Event>, ghost offer: map<Ref, Event>, ghost taken: set<Ref>)
    returns (r: Result<Tally>, next: nat, ghost got: seq<Event>)
    requires Member(d.h, history, d.State()) && IsOffer(offer, history) && Holds(m, history)
    requires Merged(d.h, history, m, offer, taken, d.Held()) && Distinct(ids)
    requires AreRequested(network, ids, events) ==> Wanted(m, offer, events)
    modifies d
    ensures Member(d.h, history, d.State()) && Grows(old(d.Held()), d.Held(), history)
    ensures !AreRequested(network, ids, events) ==> d.State() == old(d.State()) && r == Err(WrongEvents)
    ensures AreRequested(network, ids, events) && r.Err? ==> OutOfResource(r.failure)
    ensures r.Ok? ==> Merged(d.h, history, m, offer, taken + RefsOf(events), d.Held())
    ensures r.Ok? ==> r.value.created + r.value.duplicates == |events| == |got|
    ensures r.Ok? ==> Account(d.h, old(d.Held()), got, r.value.created, d.Held())
  {
    hide Member, Merged, IsOffer, Holds, Events, Grows, Wanted, AreRequested, Distinct;
    GrowsReflexive(d.h, history, d.State());
    var ok := ValidateRequestedEvents(network, ids, events);
    if !ok {
      return Err(WrongEvents), at, [];
    }
    r, next, got := ReceiveAll(d, events, walls, at, history, m, offer, taken);
  }

  /** The initiator's check on the responder's cursor. */
  method CheckedCursor(cursor: Text, page: Page) returns (r: Result<Text>)
    ensures r == if page.next != [] && Less(cursor, page.next) then Ok(page.next) else Err(CursorNotAdvancing)
  {
    if page.next == [] || !Less(cursor, page.next) {
      return Err(CursorNotAdvancing);
    }
    r := Ok(page.next);
  }

  lemma AckFits(size: Size, network: Text, events: seq<Event>, tally: Tally)
    requires ShortAcks(size) && AcceptablePush(network, events) && tally.created + tally.duplicates == |events|
    ensures Fits(size, Ack(|events|, tally.created))
  {
  }

  /** One round of the pull: compare the page, ask for what is missing, check the answer, store it. */
  method PullPage(a: Daemon, b: Daemon, link: Link, network: Text, entries: seq<Entry>, walls: nat -> Instant, at: nat,
      ghost history: set<Event>, ghost m: map<Ref, Event>, ghost passed: set<Ref>)
    returns (r: Result<Moved>, next: nat, ghost got: seq<Event>)
    requires a != b && a.h == b.h && Valid(b.store)
    requires Exchanged(a.h, history, m, Visible(b.Held(), network), passed, a.State())
    requires entries == [] || ValidEntries(entries)
    requires Describes(b.h, Visible(b.Held(), network), network, entries)
    modifies a, link
    ensures Member(a.h, history, a.State()) && Grows(old(a.Held()), a.Held(), history)
    ensures
      var ids := LackedIds(network, entries, HeldAfter(a.h, m, Visible(b.Held(), network), passed));
      Decided(link, FetchFits(false, link.size, network, b.Held(), ids), r, old(a.Held()), a.Held())
    ensures r.Ok? ==>
      PageDone(a.h, history, network, Visible(b.Held(), network),
        m, passed, entries, old(a.State()), a.State(), got, r.value)
    ensures r.Ok? ==> FetchedFrames(network, b.Held(), MissingIds(old(a.store), network, entries),
      old(link.carried), link.carried)
  {
    hide FetchedFrames, IsFetch;
    hide PrimaryKeyed, IdsIndexed, ArrivalsIndexed, ClockCovers, Merged, IsOffer, Holds, Events, Grows, Visible, Calm,
        Closed, Describes, ValidEntries, Wanted, Conflicts, AreRequested, AcceptablePush, LackedIds, Differing,
        HeldAfter, FetchFits, Valid, Member, Exchanged, MissingIds, ConflictEntries, Account, Fits;
    ghost var start, offer := a.State(), Visible(b.Held(), network);
    next, got := at, [];
    ExchangedMember(a.h, history, m, offer, passed, start);
    GrowsReflexive(a.h, history, start);
    if entries != [] {
      PageCompared(a.h, history, m, passed, start, b.State(), network, entries);
    } else {
      CompareNothing(a.h, start.store, network);
      assert PageRefs(network, entries) == {} && passed + {} == passed;
    }
    PageNeeds(a.h, history, m, passed, start, b.State(), network, entries);
    hide PageRefs;
    var compared := a.CompareInventory(network, entries);
    ComparedStillMember(a.h, history, start, a.store.observed);
    assert a.State() == start.(store := start.store.(observed := a.store.observed));
    var missing := compared.value.missing;
    if missing == [] {
      NothingToFetch(false, link.size, network, b.Held());
      StillExchanged(a.h, history, m, offer, passed + PageRefs(network, entries), start, a.State());
      AccountNone(a.h, Events(start.store));
      FetchCarried(network, b.Held(), missing, [], old(link.carried), link.carried);
      r := Ok(Moved(0, 0, compared.value.conflicts));
    } else {
      var fetched := b.EventsByIDs(network, missing);
      WasFetched(b.Held(), network, missing, fetched.value);
      PageFetched(a.h, history, m, passed, start, b.State(), network, entries, fetched.value);
      FetchFitsIff(false, link.size, network, b.Held(), missing, fetched.value);
      var sent := link.Carry(EventsRequest(missing));
      if sent != Delivered {
        return Err(Undelivered(sent)), next, got;
      }
      sent := link.Carry(EventsAnswer(fetched.value));
      if sent != Delivered {
        return Err(Undelivered(sent)), next, got;
      }
      FetchCarried(network, b.Held(), missing, fetched.value, old(link.carried), link.carried);
      var stored: Result<Tally>;
      stored, next, got := StoreFetched(a, network, missing, fetched.value, walls, next, history, m, offer,
        (passed + PageRefs(network, entries) * Events(start.store).Keys) - m.Keys);
      if stored.Err? {
        return Err(stored.failure), next, got;
      }
      PageMerged(a.h, history, m, offer, passed + PageRefs(network, entries), a.State());
      r := Ok(Moved(stored.value.created, stored.value.duplicates, compared.value.conflicts));
    }
  }

  lemma PullFitsIff(h: Hashes, size: Size, network: Text, sender: map<Ref, Event>, m: map<Ref, Event>,
      cursor: Text, page: Page, passed: set<Ref>)
    ensures PageFits(false, h, size, network, sender, m, cursor, page, passed) <==>
      var ids := LackedIds(network, page.entries, HeldAfter(h, m, Visible(sender, network), passed));
      && Fits(size, PageRequest(cursor)) && Fits(size, PageAnswer(page))
      && FetchFits(false, size, network, sender, ids)
  {
  }

  /** One whole round of the pull: the page is asked for and answered, and what it lacks is fetched. */
  method PullRound(a: Daemon, b: Daemon, link: Link, network: Text, cursor: Text, page: Page, walls: nat -> Instant,
      at: nat, ghost history: set<Event>, ghost m: map<Ref, Event>, ghost passed: set<Ref>)
    returns (r: Result<Moved>, next: nat, ghost got: seq<Event>)
    requires a != b && a.h == b.h && Valid(b.store)
    requires Exchanged(a.h, history, m, Visible(b.Held(), network), passed, a.State())
    requires page.entries == [] || ValidEntries(page.entries)
    requires Describes(b.h, Visible(b.Held(), network), network, page.entries)
    modifies a, link
    ensures Member(a.h, history, a.State()) && Grows(old(a.Held()), a.Held(), history)
    ensures Decided(link, PageFits(false, a.h, link.size, network, b.Held(), m, cursor, page, passed),
      r, old(a.Held()), a.Held())
    ensures r.Ok? ==>
      PageDone(a.h, history, network, Visible(b.Held(), network), m,
        passed, page.entries, old(a.State()), a.State(), got, r.value)
    ensures r.Ok? ==> PullFrames(network, b.Held(), old(a.store), cursor, page, old(link.carried), link.carried)
  {
    hide PullFrames, FetchedFrames;
    hide Member, Exchanged, PageDone, Grows, Events, Visible, ValidEntries, Describes, PageFits, FetchFits, LackedIds,
        HeldAfter;
    next, got := at, [];
    PullFitsIff(a.h, link.size, network, b.Held(), m, cursor, page, passed);
    ExchangedMember(a.h, history, m, Visible(b.Held(), network), passed, a.State());
    var sent := link.Carry(PageRequest(cursor));
    if sent == Delivered {
      sent := link.Carry(PageAnswer(page));
    }
    if sent != Delivered {
      return Err(Undelivered(sent)), next, got;
    }
    ghost var asked := link.carried;
    r, next, got := PullPage(a, b, link, network, page.entries, walls, at, history, m, passed);
    if r.Ok? {
      RoundPulled(network, b.Held(), old(a.store), cursor, page, old(link.carried), asked, link.carried);
    }
  }

  /****** Walking over the pages ******/

  /** Exactly the references at or before the cursor have been passed. */
  ghost predicate PassedUpTo(offer: map<Ref, Event>, passed: set<Ref>, cursor: Text) {
    passed <= offer.Keys && forall r :: r in offer ==> (r in passed <==> cursor != [] && !Less(cursor, Encode(r.id)))
  }

  lemma PagePasses(h: Hashes, sender: Node, network: Text, cursor: Text, page: Page, passed: set<Ref>)
    requires ValidNode(sender) && IsPage(h, Events(sender.store), network, cursor, PAGE_SIZE, page)
    requires PassedUpTo(Visible(Events(sender.store), network), passed, cursor)
    ensures var offer := Visible(Events(sender.store), network);
      var refs := PageRefs(network, page.entries);
      && Describes(h, offer, network, page.entries)
      && refs !! passed && |refs| == |page.entries| && refs <= offer.Keys
      && (page.done ==> passed + refs == offer.Keys)
      && (!page.done ==> PassedUpTo(offer, passed + refs, page.next) && refs != {} && Decode(page.next).Value?
                         && page.next != [] && (cursor == [] || Less(cursor, page.next)))
  {
    hide PrimaryKeyed, IdsIndexed, ArrivalsIndexed, ClockCovers, Superseded, Events, Visible, IsPage;
    var m := Events(sender.store);
    var offer := Visible(m, network);
    assert Identified(m) by { HeldAreIdentified(sender); }
    hide ValidNode, Identified;
    PageAdvances(h, m, network, cursor, PAGE_SIZE, page);
    PageDescribes(h, m, network, cursor, page);
    forall r | r in PageRefs(network, page.entries) ensures r in offer && r !in passed && Names(page.entries, r.id) {
      var e :| e in page.entries && Ref(network, e.id) == r;
      var i :| 0 <= i < |page.entries| && page.entries[i] == e;
      assert page.entries[i].id == r.id;
    }
    forall r | r in offer && r !in passed
      ensures r in PageRefs(network, page.entries) || (!page.done && Less(page.next, Encode(r.id)))
    {
      if Names(page.entries, r.id) {
        var i :| 0 <= i < |page.entries| && page.entries[i].id == r.id;
        assert page.entries[i] in page.entries && r.network == network;
      }
    }
    if !page.done {
      PassedFurther(network, offer, passed, PageRefs(network, page.entries), cursor, page.next);
      assert page.entries[0] in page.entries;
      assert Ref(network, page.entries[0].id) in PageRefs(network, page.entries);
    }
  }

  lemma PassedFurther(network: Text, offer: map<Ref, Event>, passed: set<Ref>, refs: set<Ref>, cursor: Text, next: Text)
    requires PassedUpTo(offer, passed, cursor) && refs <= offer.Keys && next != []
    requires (cursor == [] || Less(cursor, next))
    requires forall r :: r in refs ==> Encode(r.id) == next || Less(Encode(r.id), next)
    requires forall r :: r in offer && r !in passed ==> r in refs || Less(next, Encode(r.id))
    ensures PassedUpTo(offer, passed + refs, next)
  {
    forall r | r in offer ensures r in passed + refs <==> !Less(next, Encode(r.id)) {
      if r in refs {
        LessIrreflexive(next);
        if Less(next, Encode(r.id)) {
          LessAsymmetric(next, Encode(r.id));
        }
      }
      if r in passed && Less(next, Encode(r.id)) {
        LessTransitive(cursor, next, Encode(r.id));
      }
    }
  }

  lemma HeldAreIdentified(n: Node)
    requires ValidNode(n)
    ensures Identified(Events(n.store))
  {
    hide ArrivalsIndexed, ClockCovers;
    forall r | r in Events(n.store) ensures r.id != [] {
      FindIsEvents(n.store, r);
    }
  }

  lemma PageDescribes(h: Hashes, m: map<Ref, Event>, network: Text, cursor: Text, page: Page)
    requires IsPage(h, m, network, cursor, PAGE_SIZE, page)
    ensures Describes(h, Visible(m, network), network, page.entries)
    ensures |PageRefs(network, page.entries)| == |page.entries|
    ensures forall r :: r in Visible(m, network) ==> r.network == network
    ensures !page.done ==> Decode(page.next).Value?
  {
    hide Superseded, Names, Lists;
    RefsCounted(network, page.entries);
    if !page.done {
      var all := Ascending(Behind(m, network, cursor));
      assert page.next in all;
      var r :| r in Visible(m, network) && Encode(r.id) == page.next;
      EncodeRoundTrip(r.id);
    }
  }

  lemma {:induction false} RefsCounted(network: Text, entries: seq<Entry>)
    requires IdsAscend(entries)
    ensures |PageRefs(network, entries)| == |entries|
  {
    hide Less;
    if entries != [] {
      var front, last := entries[..|entries| - 1], entries[|entries| - 1];
      RefsCounted(network, front);
      assert entries == front + [last];
      assert PageRefs(network, entries) == PageRefs(network, front) + {Ref(network, last.id)};
      if e :| e in front && Ref(network, e.id) == Ref(network, last.id) {
        var i :| 0 <= i < |front| && front[i] == e;
        LessIrreflexive(entries[i].id);
      }
    }
  }

  /** `all` begins with the values and lists what they and the candidates hold, nothing new twice. */
  ghost predicate Appended(all: seq<Text>, values: seq<Text>, candidates: seq<Text>) {
    && values <= all && (forall id :: id in all <==> id in values || id in candidates)
    && (Distinct(values) ==> Distinct(all))
  }

  /** appendUniqueStrings */
  method AppendUniqueStrings(values: seq<Text>, candidates: seq<Text>) returns (r: seq<Text>)
    ensures Appended(r, values, candidates)
  {
    r := values;
    var seen := set id | id in values;
    var i := 0;
    while i < |candidates|
      invariant 0 <= i <= |candidates|
      invariant values <= r && forall id :: id in r <==> id in values || id in candidates[..i]
      invariant forall id :: id in seen <==> id in r
      invariant Distinct(values) ==> Distinct(r)
    {
      assert candidates[..i + 1] == candidates[..i] + [candidates[i]];
      if candidates[i] !in seen {
        seen := seen + {candidates[i]};
        r := r + [candidates[i]];
      }
      i := i + 1;
    }
    assert candidates[..i] == candidates;
  }

  lemma MemberReadable(h: Hashes, history: set<Event>, n: Node, network: Text)
    requires Member(h, history, n)
    ensures Valid(n.store) && !Unreadable(Events(n.store), network)
  {
    hide PrimaryKeyed, IdsIndexed, ArrivalsIndexed, ClockCovers;
    forall x | x in Events(n.store) ensures !Parse(Events(n.store)[x]).Malformed? {
      assert Undisputed(h, history, Events(n.store)[x]);
    }
  }

  lemma ExchangeStarts(h: Hashes, history: set<Event>, sender: Node, receiver: Node, network: Text)
    requires Member(h, history, sender) && Member(h, history, receiver)
    ensures var m, offer := Events(receiver.store), Visible(Events(sender.store), network);
      Exchanged(h, history, m, offer, {}, receiver) && PassedUpTo(offer, {}, [])
  {
    VisibleIsOffer(Events(sender.store), network, history);
    MergedStart(h, history, Events(receiver.store), Visible(Events(sender.store), network));
    assert {} - Events(receiver.store).Keys == {};
  }

  lemma ExchangeEnds(h: Hashes, history: set<Event>, sender: Node, m: map<Ref, Event>, network: Text, passed: set<Ref>,
      now: Node)
    requires Exchanged(h, history, m, Visible(Events(sender.store), network), passed, now)
    requires passed == Visible(Events(sender.store), network).Keys
    ensures Transfer(h, history, network, Events(sender.store), m, Events(now.store))
  {
  }

  /** The entries of an honest page pass the receiver's check. */
  lemma PageAccepted(h: Hashes, history: set<Event>, sender: Node, network: Text, cursor: Text, page: Page)
    requires Member(h, history, sender) && Digested(h, history)
    requires IsPage(h, Events(sender.store), network, cursor, PAGE_SIZE, page)
    ensures page.entries == [] || ValidEntries(page.entries)
  {
    hide PrimaryKeyed, IdsIndexed, ArrivalsIndexed, ClockCovers, Calm, Closed;
    HeldAreIdentified(sender);
    if page.entries != [] {
      HonestPageAccepted(h, history, Events(sender.store), network, cursor, PAGE_SIZE, page);
    }
  }

  /** The conflicts reported so far, next to those reported before. */
  ghost predicate Reports(conflicts: seq<Text>, before: seq<Text>, network: Text, passed: set<Ref>,
      offer: map<Ref, Event>, m: map<Ref, Event>) {
    && (Distinct(before) ==> Distinct(conflicts))
    && forall id :: id in conflicts <==>
      id in before || (Ref(network, id) in passed && Ref(network, id) in Conflicts(offer, m))
  }

  lemma ReportsMore(conflicts: seq<Text>, more: seq<Text>, found: seq<Text>, before: seq<Text>, network: Text,
      passed: set<Ref>, refs: set<Ref>, offer: map<Ref, Event>, m: map<Ref, Event>)
    requires Reports(conflicts, before, network, passed, offer, m)
    requires forall id :: id in found <==> Ref(network, id) in refs && Ref(network, id) in Conflicts(offer, m)
    requires Appended(more, conflicts, found)
    ensures Reports(more, before, network, passed + refs, offer, m)
  {
    hide Conflicts, Distinct;
  }

  /** A transfer on its way: what has been passed, received, counted and reported so far. */
  ghost predicate Underway(h: Hashes, history: set<Event>, network: Text, offer: map<Ref, Event>, m: map<Ref, Event>,
      passed: set<Ref>, cursor: Text,
      now: Node, got: seq<Event>, moved: Moved, before: seq<Text>)
  {
    && Member(h, history, now) && Grows(m, Events(now.store), history)
    && Exchanged(h, history, m, offer, passed, now)
    && PassedUpTo(offer, passed, cursor) && (cursor == [] || Decode(cursor).Value?)
    && Account(h, m, got, moved.created, Events(now.store)) && moved.created + moved.duplicates == |got|
    && Reports(moved.conflicts, before, network, passed, offer, m)
  }

  /** A transfer that is complete. */
  ghost predicate Transferred(h: Hashes, history: set<Event>, network: Text, sender: map<Ref, Event>,
      m: map<Ref, Event>, now: Node,
      got: seq<Event>, moved: Moved, before: seq<Text>)
  {
    && Member(h, history, now) && Grows(m, Events(now.store), history)
    && Transfer(h, history, network, sender, m, Events(now.store))
    && Account(h, m, got, moved.created, Events(now.store)) && moved.created + moved.duplicates == |got|
    && Reports(moved.conflicts, before, network, Visible(sender, network).Keys, Visible(sender, network), m)
  }

  lemma UnderwayStarts(h: Hashes, history: set<Event>, network: Text, sender: Node, receiver: Node, before: seq<Text>)
    requires Member(h, history, sender) && Member(h, history, receiver)
    ensures Underway(h, history, network, Visible(Events(sender.store), network),
      Events(receiver.store), {}, [], receiver, [], Moved(0, 0, before), before)
    ensures Valid(sender.store) && !Unreadable(Events(sender.store), network)
  {
    hide Member, Exchanged, PassedUpTo, Grows, Events, Visible, Account, Reports;
    ExchangeStarts(h, history, sender, receiver, network);
    GrowsReflexive(h, history, receiver);
    AccountNone(h, Events(receiver.store));
    ReportsNothing(before, network, Visible(Events(sender.store), network), Events(receiver.store));
    MemberReadable(h, history, sender, network);
  }

  /** What one page did to the receiver. */
  ghost predicate PageDone(h: Hashes, history: set<Event>, network: Text, offer: map<Ref, Event>, m: map<Ref, Event>,
      passed: set<Ref>, entries: seq<Entry>,
      n: Node, now: Node, extra: seq<Event>, moved: Moved)
  {
    && Member(h, history, now) && Grows(Events(n.store), Events(now.store), history)
    && Exchanged(h, history, m, offer, passed + PageRefs(network, entries), now)
    && Account(h, Events(n.store), extra, moved.created, Events(now.store))
      && moved.created + moved.duplicates == |extra|
    && forall id :: id in moved.conflicts <==>
      Ref(network, id) in PageRefs(network, entries) && Ref(network, id) in Conflicts(offer, m)
  }

  lemma EmptyPageDone(h: Hashes, history: set<Event>, network: Text, offer: map<Ref, Event>, m: map<Ref, Event>,
      passed: set<Ref>, n: Node)
    requires Member(h, history, n) && Exchanged(h, history, m, offer, passed, n)
    ensures PageDone(h, history, network, offer, m, passed, [], n, n, [], Moved(0, 0, []))
  {
    hide Member, Exchanged, Grows, Events, Account, Conflicts;
    GrowsReflexive(h, history, n);
    AccountNone(h, Events(n.store));
    assert passed + PageRefs(network, []) == passed;
  }

  function Sum(a: Moved, b: Moved, conflicts: seq<Text>): Moved {
    Moved(a.created + b.created, a.duplicates + b.duplicates, conflicts)
  }

  lemma UnderwayStep(h: Hashes, history: set<Event>, network: Text, sender: Node, m: map<Ref, Event>, passed: set<Ref>,
      cursor: Text, page: Page,
      n: Node, now: Node, got: seq<Event>, extra: seq<Event>, moved: Moved, more: Moved,
      conflicts: seq<Text>, before: seq<Text>)
    requires Member(h, history, sender) && Digested(h, history)
    requires IsPage(h, Events(sender.store), network, cursor, PAGE_SIZE, page)
    requires Underway(h, history, network, Visible(Events(sender.store), network),
      m, passed, cursor, n, got, moved, before)
    requires PageDone(h, history, network, Visible(Events(sender.store), network),
      m, passed, page.entries, n, now, extra, more)
    requires Appended(conflicts, moved.conflicts, more.conflicts)
    ensures var offer := Visible(Events(sender.store), network);
      var refs := PageRefs(network, page.entries);
      && refs !! passed && |refs| == |page.entries|
      && (if page.done then
            && passed + refs == offer.Keys
            && Transferred(h, history, network, Events(sender.store),
              m, now, got + extra, Sum(moved, more, conflicts), before)
          else
            && refs != {} && refs <= offer.Keys && page.next != [] && Less(cursor, page.next)
            && Underway(h, history, network, offer, m, passed + refs,
              page.next, now, got + extra, Sum(moved, more, conflicts), before))
  {
    hide Member, Exchanged, PassedUpTo, Grows, Events, Visible, Transfer, IsPage, Reports, ValidEntries, Describes,
        PageRefs, Conflicts, Account, Distinct, Less, Decode;
    var offer := Visible(Events(sender.store), network);
    var refs := PageRefs(network, page.entries);
    PagePassesMember(h, history, sender, network, cursor, page, passed);
    GrowsTransitive(m, Events(n.store), Events(now.store), history);
    AccountJoin(h, m, got, moved.created, Events(n.store), extra, more.created, Events(now.store));
    ReportsMore(moved.conflicts, conflicts, more.conflicts, before, network, passed, refs, offer, m);
    if page.done {
      ExchangeEnds(h, history, sender, m, network, passed + refs, now);
    } else if cursor == [] {
      LessFromStart(page.next);
    }
  }

  lemma LessFromStart(t: Text)
    requires t != []
    ensures Less([], t)
  {
  }

  lemma UnderwayMember(h: Hashes, history: set<Event>, network: Text, offer: map<Ref, Event>, m: map<Ref, Event>,
      passed: set<Ref>, cursor: Text,
      now: Node, got: seq<Event>, moved: Moved, before: seq<Text>)
    requires Underway(h, history, network, offer, m, passed, cursor, now, got, moved, before)
    ensures Member(h, history, now) && Grows(m, Events(now.store), history)
    ensures Exchanged(h, history, m, offer, passed, now)
    ensures cursor == [] || Decode(cursor).Value?
  {
  }

  lemma PageOf(h: Hashes, history: set<Event>, sender: Node, network: Text, cursor: Text, page: Page)
    requires Member(h, history, sender) && Digested(h, history)
    requires IsPage(h, Events(sender.store), network, cursor, PAGE_SIZE, page)
    ensures Describes(h, Visible(Events(sender.store), network), network, page.entries)
    ensures (page.entries == [] || ValidEntries(page.entries))
  {
    hide Visible;
    PageAccepted(h, history, sender, network, cursor, page);
    PageDescribes(h, Events(sender.store), network, cursor, page);
  }

  /** pushInventory: a complete push transfers exactly what the initiator shows and the responder
      lacked. A push that breaks off leaves the responder with part of it. One that a frame beyond the
      limit has stopped would be stopped again, whatever the responder has got meanwhile. */
  method PushInventory(a: Daemon, b: Daemon, link: Link, network: Text, walls: nat -> Instant,
      ghost history: set<Event>, before: Report)
    returns (r: Result<Report>, ghost got: seq<Event>)
    requires a != b && a.h == b.h && network != [] && Peer(a, history) && Peer(b, history) && ShortAcks(link.size)
    modifies b, link
    ensures Peer(b, history) && Grows(old(b.Held()), b.Held(), history)
    ensures r.Err? ==> FailsFor(link, r.failure)
    ensures r.Ok? ==> TransferFits(true, b.h, link.size, network, a.Held(), old(b.Held()))
    ensures r == Err(FrameTooLong) ==>
      && !TransferFits(true, b.h, link.size, network, a.Held(), old(b.Held()))
      && !TransferFits(true, b.h, link.size, network, a.Held(), b.Held())
    ensures r.Ok? ==>
      && r.value.inventoried == before.inventoried + |Visible(a.Held(), network)| && r.value.pulled == before.pulled
      && r.value.pushed >= before.pushed && r.value.duplicates >= before.duplicates
      && Transferred(b.h, history, network, a.Held(), old(b.Held()), b.State(), got,
           Moved(r.value.pushed - before.pushed, r.value.duplicates - before.duplicates,
             r.value.conflicts), before.conflicts)
  {
    hide Member, Exchanged, Underway, Transferred, PageDone, Grows, Events, Visible, IsPage, ValidEntries, Describes,
        PageRefs, Unreadable, Conflicts, Account, Less, Decode, Distinct, PageFits, Walked, TransferFits, FetchFits,
        LackedIds, HeldAfter, ShortAcks, Appended, Digested, ValidNode, Holds, Valid;
    var report := before;
    var cursor: Text := [];
    var at: nat := 0;
    got := [];
    ghost var m, offer := b.Held(), Visible(a.Held(), network);
    ghost var passed: set<Ref> := {};
    ghost var moved := Moved(0, 0, before.conflicts);
    ghost var pages: seq<Page> := [];
    WalkStarts(true, b.h, link.size, network, a.Held(), m);
    UnderwayStarts(b.h, history, network, a.State(), b.State(), before.conflicts);
    while true
      invariant Underway(b.h, history, network, offer, m, passed, cursor, b.State(), got, moved, before.conflicts)
      invariant Walked(true, b.h, link.size, network, a.Held(), m, pages, passed, cursor)
      invariant report == Report(before.inventoried + |passed|, before.pushed + moved.created,
        before.pulled, before.duplicates + moved.duplicates, moved.conflicts)
      decreases offer.Keys - passed
    {
      ghost var n := b.State();
      ghost var extra: seq<Event> := [];
      UnderwayMember(b.h, history, network, offer, m, passed, cursor, n, got, moved, before.conflicts);
      var page := a.InventoryPage(network, cursor, PAGE_SIZE);
      PageOf(a.h, history, a.State(), network, cursor, page.value);
      var entries := page.value.entries;
      var more := Moved(0, 0, []);
      if |entries| > 0 {
        report := report.(inventoried := report.inventoried + |entries|);
        var pushed: Result<Moved>;
        pushed, at, extra := PushPage(a, b, link, network, page.value, walls, at, history, m, passed, cursor);
        if pushed.Err? {
          if pushed.failure == FrameTooLong {
            WillNotFit(true, b.h, history, link.size, m, passed, n, a.State(), network, pages, cursor, page.value);
          }
          GrowsTransitive(m, Events(n.store), b.Held(), history);
          return Err(pushed.failure), got;
        }
        more := pushed.value;
      } else {
        EmptyPageDone(b.h, history, network, offer, m, passed, n);
        EmptyPageFits(b.h, link.size, network, a.Held(), m, cursor, page.value, passed);
      }
      WalkStep(true, b.h, link.size, network, a.Held(), m, pages, passed, cursor, page.value);
      pages := pages + [page.value];
      var conflicts := AppendUniqueStrings(report.conflicts, more.conflicts);
      UnderwayStep(b.h, history, network, a.State(), m, passed, cursor, page.value,
        n, b.State(), got, extra, moved, more, conflicts, before.conflicts);
      got := got + extra;
      moved := Sum(moved, more, conflicts);
      passed := passed + PageRefs(network, entries);
      report := report.(conflicts := conflicts, pushed := report.pushed + more.created,
        duplicates := report.duplicates + more.duplicates);
      if page.value.done {
        TransferredMember(b.h, history, network, a.Held(), m, b.State(), got, moved, before.conflicts);
        return Ok(report), got;
      }
      cursor := page.value.next;
    }
  }

  lemma TransferredMember(h: Hashes, history: set<Event>, network: Text, sender: map<Ref, Event>, m: map<Ref, Event>,
      now: Node,
      got: seq<Event>, moved: Moved, before: seq<Text>)
    requires Transferred(h, history, network, sender, m, now, got, moved, before)
    ensures Member(h, history, now) && Grows(m, Events(now.store), history)
  {
  }

  lemma ReportsNothing(conflicts: seq<Text>, network: Text, offer: map<Ref, Event>, m: map<Ref, Event>)
    ensures Reports(conflicts, conflicts, network, {}, offer, m)
  {
  }

  lemma PagePassesMember(h: Hashes, history: set<Event>, sender: Node, network: Text, cursor: Text, page: Page,
      passed: set<Ref>)
    requires Member(h, history, sender) && Digested(h, history)
    requires IsPage(h, Events(sender.store), network, cursor, PAGE_SIZE, page)
    requires PassedUpTo(Visible(Events(sender.store), network), passed, cursor)
    ensures var offer := Visible(Events(sender.store), network);
      var refs := PageRefs(network, page.entries);
      && Describes(h, offer, network, page.entries) && (page.entries == [] || ValidEntries(page.entries))
      && refs !! passed && |refs| == |page.entries| && refs <= offer.Keys
      && (page.done ==> passed + refs == offer.Keys)
      && (!page.done ==> PassedUpTo(offer, passed + refs, page.next) && refs != {} && Decode(page.next).Value?
                         && page.next != [] && (cursor == [] || Less(cursor, page.next)))
  {
    hide IsPage, Visible, PassedUpTo, Describes, PageRefs, ValidEntries;
    PageAccepted(h, history, sender, network, cursor, page);
    PagePasses(h, sender, network, cursor, page, passed);
  }

  lemma EmptyPageFits(h: Hashes, size: Size, network: Text, sender: map<Ref, Event>, m: map<Ref, Event>,
      cursor: Text, page: Page, passed: set<Ref>)
    requires page.entries == []
    ensures PageFits(true, h, size, network, sender, m, cursor, page, passed)
  {
  }

  /** pullInventory: a complete pull transfers exactly what the responder shows and the initiator
      lacked; against an honest responder the checks on the answers never fail. The limit on frames
      stops a pull as it stops a push. */
  method PullInventory(a: Daemon, b: Daemon, link: Link, network: Text, walls: nat -> Instant,
      ghost history: set<Event>, before: Report)
    returns (r: Result<Report>, ghost got: seq<Event>)
    requires a != b && a.h == b.h && network != [] && Peer(a, history) && Peer(b, history)
    modifies a, link
    ensures Peer(a, history) && Grows(old(a.Held()), a.Held(), history)
    ensures r.Err? ==> FailsFor(link, r.failure)
    ensures r.Ok? ==> TransferFits(false, a.h, link.size, network, b.Held(), old(a.Held()))
    ensures r == Err(FrameTooLong) ==>
      && !TransferFits(false, a.h, link.size, network, b.Held(), old(a.Held()))
      && !TransferFits(false, a.h, link.size, network, b.Held(), a.Held())
    ensures r.Ok? ==>
      && r.value.inventoried == before.inventoried && r.value.pushed == before.pushed
      && r.value.pulled >= before.pulled && r.value.duplicates >= before.duplicates
      && Transferred(a.h, history, network, b.Held(), old(a.Held()), a.State(), got,
           Moved(r.value.pulled - before.pulled, r.value.duplicates - before.duplicates,
             r.value.conflicts), before.conflicts)
  {
    hide Member, Exchanged, Underway, Transferred, PageDone, Grows, Events, Visible, IsPage, ValidEntries, Describes,
        PageRefs, Unreadable, Conflicts, Account, Less, Decode, Distinct, PageFits, Walked, TransferFits, FetchFits,
        LackedIds, HeldAfter, ShortAcks, Appended, Digested, ValidNode, Holds, Valid;
    var report := before;
    var cursor: Text := [];
    var at: nat := 0;
    got := [];
    ghost var m, offer := a.Held(), Visible(b.Held(), network);
    ghost var passed: set<Ref> := {};
    ghost var moved := Moved(0, 0, before.conflicts);
    ghost var pages: seq<Page> := [];
    WalkStarts(false, a.h, link.size, network, b.Held(), m);
    UnderwayStarts(a.h, history, network, b.State(), a.State(), before.conflicts);
    while true
      invariant Underway(a.h, history, network, offer, m, passed, cursor, a.State(), got, moved, before.conflicts)
      invariant Walked(false, a.h, link.size, network, b.Held(), m, pages, passed, cursor)
      invariant report == Report(before.inventoried, before.pushed,
        before.pulled + moved.created, before.duplicates + moved.duplicates, moved.conflicts)
      decreases offer.Keys - passed
    {
      ghost var n := a.State();
      ghost var extra: seq<Event> := [];
      UnderwayMember(a.h, history, network, offer, m, passed, cursor, n, got, moved, before.conflicts);
      var page := b.InventoryPage(network, cursor, PAGE_SIZE);
      PageOf(b.h, history, b.State(), network, cursor, page.value);
      var pulled: Result<Moved>;
      pulled, at, extra := PullRound(a, b, link, network, cursor, page.value, walls, at, history, m, passed);
      if pulled.Err? {
        if pulled.failure == FrameTooLong {
          WillNotFit(false, a.h, history, link.size, m, passed, n, b.State(), network, pages, cursor, page.value);
        }
        GrowsTransitive(m, Events(n.store), a.Held(), history);
        return Err(pulled.failure), got;
      }
      var more := pulled.value;
      var conflicts := AppendUniqueStrings(report.conflicts, more.conflicts);
      WalkStep(false, a.h, link.size, network, b.Held(), m, pages, passed, cursor, page.value);
      UnderwayStep(a.h, history, network, b.State(), m, passed, cursor, page.value,
        n, a.State(), got, extra, moved, more, conflicts, before.conflicts);
      got := got + extra;
      moved := Sum(moved, more, conflicts);
      passed := passed + PageRefs(network, page.value.entries);
      report := report.(conflicts := conflicts, pulled := report.pulled + more.created,
        duplicates := report.duplicates + more.duplicates);
      if page.value.done {
        TransferredMember(a.h, history, network, b.Held(), m, a.State(), got, moved, before.conflicts);
        return Ok(report), got;
      }
      pages := pages + [page.value];
      var checked := CheckedCursor(cursor, page.value);
      if checked.Err? {
        return Err(CursorNotAdvancing), got;
      }
      cursor := checked.value;
    }
  }

  /** The references that the session reports as conflicts: those of the push and those of the pull. */
  ghost predicate ReportsSession(conflicts: seq<Text>, network: Text, a: map<Ref, Event>, b: map<Ref, Event>,
      b': map<Ref, Event>) {
    && Distinct(conflicts)
    && forall id :: id in conflicts <==>
         Ref(network, id) in Conflicts(Visible(a, network), b) || Ref(network, id) in Conflicts(Visible(b', network), a)
  }

  /** Wherever in a mesh the two replicas stand, what happened to them is a session of the mesh. */
  ghost predicate StepsMesh(h: Hashes, history: set<Event>, network: Text, a: map<Ref, Event>, b: map<Ref, Event>,
      a': map<Ref, Event>, b': map<Ref, Event>) {
    forall ms: Replicas, i: nat, j: nat {:trigger MeshStep(h, history, network, ms, i, j, ms[i := a'][j := b'])} ::
      i < |ms| && j < |ms| && i != j && ms[i] == a && ms[j] == b ==>
        MeshStep(h, history, network, ms, i, j, ms[i := a'][j := b'])
  }

  /** synchronizePeer. A session that ends well has had exactly the effect that the session theorems
      speak about, and its counts are those of the two stores; one that breaks off anywhere leaves
      both replicas with everything they had and some of what they lacked. Either way it is a step of
      the convergence argument. Over a connection that delivers everything, and short of a clock or
      sequence that runs out, it ends well if and only if no page needs a frame beyond the limit, which
      the two replicas decide before it. */
  method SynchronizePeer(a: Daemon, b: Daemon, link: Link, network: Text, walls: nat -> Instant,
      ghost history: set<Event>)
    returns (r: Result<Report>, ghost pushed: seq<Event>, ghost pulled: seq<Event>)
    requires a != b && a.h == b.h && network != [] && Peer(a, history) && Peer(b, history) && ShortAcks(link.size)
    modifies a, b, link
    ensures Peer(a, history) && Peer(b, history)
    ensures StepsMesh(a.h, history, network, old(a.Held()), old(b.Held()), a.Held(), b.Held())
    ensures r.Err? ==> FailsFor(link, r.failure)
    ensures
      var fits := SessionFits(a.h, link.size, history, network, old(a.Held()), old(b.Held()));
      (r.Ok? ==> fits) && (r == Err(FrameTooLong) ==> !fits)
    ensures link.lossless && (r.Err? ==> !OutOfResource(r.failure)) ==>
      (r.Ok? <==> SessionFits(a.h, link.size, history, network, old(a.Held()), old(b.Held())))
    ensures r.Ok? ==> Synced(a.h, history, network, old(a.Held()), old(b.Held()), a.Held(), b.Held())
    ensures r.Ok? ==>
      && r.value.inventoried == |Visible(old(a.Held()), network)|
      && Account(b.h, old(b.Held()), pushed, r.value.pushed, b.Held())
      && Account(a.h, old(a.Held()), pulled, r.value.pulled, a.Held())
      && r.value.pushed + r.value.pulled + r.value.duplicates == |pushed| + |pulled|
      && |b.Held()| == |old(b.Held())| + r.value.pushed + CopiesMade(b.h, old(b.Held()), pushed)
      && |a.Held()| == |old(a.Held())| + r.value.pulled + CopiesMade(a.h, old(a.Held()), pulled)
      && ReportsSession(r.value.conflicts, network, old(a.Held()), old(b.Held()), b.Held())
  {
    hide Peer, Grows, Visible, Transfer, Reports, Events, Transferred, TransferFits, SessionFits, ShortAcks,
        Account, CopiesMade, ReportsSession, StepsMesh;
    PushDecides(a.h, link.size, history, network, a.Held(), b.Held());
    ghost var start, other := a.State(), b.Held();
    GrowsReflexivePeer(a, history);
    pushed, pulled := [], [];
    r, pushed := PushInventory(a, b, link, network, walls, history, Report(0, 0, 0, 0, []));
    if r.Err? {
      PartialStep(a.h, history, network, Events(start.store), other, a.Held(), b.Held());
      return;
    }
    ghost var halfway := r.value;
    assert a.State() == start;
    assert Peer(a, history);
    HalfwayTransfer(b.h, history, network, a.Held(), other, b.State(), pushed,
      Moved(halfway.pushed, halfway.duplicates, halfway.conflicts));
    FitsFromHere(a.h, link.size, history, network, a.Held(), other, b.Held());
    r, pulled := PullInventory(a, b, link, network, walls, history, r.value);
    PartialStep(a.h, history, network, Events(start.store), other, a.Held(), b.Held());
    if r.Ok? {
      SessionTransferred(b.h, history, network, start, other, b.State(), a.State(), pushed, pulled,
        Moved(halfway.pushed, halfway.duplicates, halfway.conflicts),
        Moved(r.value.pulled, r.value.duplicates - halfway.duplicates, r.value.conflicts));
    }
  }

  /** The two transfers of a session, and what its report says about them. */
  lemma SessionTransferred(h: Hashes, history: set<Event>, network: Text, a: Node, b: map<Ref, Event>, b': Node,
      a': Node,
      pushed: seq<Event>, pulled: seq<Event>, push: Moved, pull: Moved)
    requires Transferred(h, history, network, Events(a.store), b, b', pushed, push, [])
    requires Transferred(h, history, network, Events(b'.store), Events(a.store), a', pulled, pull, push.conflicts)
    ensures Synced(h, history, network, Events(a.store), b, Events(a'.store), Events(b'.store))
    ensures Account(h, b, pushed, push.created, Events(b'.store))
    ensures Account(h, Events(a.store), pulled, pull.created, Events(a'.store))
    ensures push.created + pull.created + push.duplicates + pull.duplicates == |pushed| + |pulled|
    ensures |Events(b'.store)| == |b| + push.created + CopiesMade(h, b, pushed)
    ensures |Events(a'.store)| == |Events(a.store)| + pull.created + CopiesMade(h, Events(a.store), pulled)
    ensures ReportsSession(pull.conflicts, network, Events(a.store), b, Events(b'.store))
  {
    hide Member, Grows, Visible, Transfer, Reports, Events, Account, CopiesMade;
    AccountSize(h, b, pushed, push.created, Events(b'.store));
    AccountSize(h, Events(a.store), pulled, pull.created, Events(a'.store));
    SessionReported(push.conflicts, pull.conflicts, network, Events(a.store), b, Events(b'.store));
  }

  lemma GrowsReflexivePeer(d: Daemon, history: set<Event>)
    requires Peer(d, history)
    ensures Grows(d.Held(), d.Held(), history)
  {
  }

  lemma SessionReported(pushed: seq<Text>, all: seq<Text>, network: Text, a: map<Ref, Event>, b: map<Ref, Event>,
      b': map<Ref, Event>)
    requires Reports(pushed, [], network, Visible(a, network).Keys, Visible(a, network), b)
    requires Reports(all, pushed, network, Visible(b', network).Keys, Visible(b', network), a)
    ensures ReportsSession(all, network, a, b, b')
  {
    hide Visible;
  }

  lemma PartialStep(h: Hashes, history: set<Event>, network: Text, a: map<Ref, Event>, b: map<Ref, Event>,
      a': map<Ref, Event>, b': map<Ref, Event>)
    requires Grows(a, a', history) && Grows(b, b', history)
    ensures StepsMesh(h, history, network, a, b, a', b')
  {
    hide Grows, Synced;
  }

  lemma PushDecides(h: Hashes, size: Size, history: set<Event>, network: Text, a: map<Ref, Event>, b: map<Ref, Event>)
    ensures !TransferFits(true, h, size, network, a, b) ==> !SessionFits(h, size, history, network, a, b)
  {
    hide TransferFits;
  }

  lemma HalfwayTransfer(h: Hashes, history: set<Event>, network: Text, sender: map<Ref, Event>, m: map<Ref, Event>,
      now: Node, got: seq<Event>, moved: Moved)
    requires Transferred(h, history, network, sender, m, now, got, moved, [])
    ensures Transfer(h, history, network, sender, m, Events(now.store)) && Calm(h, history)
  {
  }

  /** The receiver's state after a transfer is determined. */
  lemma TransferUnique(h: Hashes, history: set<Event>, network: Text, sender: map<Ref, Event>, m: map<Ref, Event>,
      p: map<Ref, Event>, q: map<Ref, Event>)
    requires Calm(h, history)
    requires Transfer(h, history, network, sender, m, p) && Transfer(h, history, network, sender, m, q)
    ensures p == q
  {
    hide Calm, Visible;
    forall r | r in p ensures p[r] == q[r] {
      var offer := Visible(sender, network);
      if r !in m && r !in Missing(offer, m) {
        assert r in Copies(h, m, offer, Missing(offer, m));
        CopiesAgree(h, history, p[r], q[r]);
      }
    }
  }

  /** Once the push is complete, the pull decides whether the session fits. */
  lemma FitsFromHere(h: Hashes, size: Size, history: set<Event>, network: Text, a: map<Ref, Event>,
      b: map<Ref, Event>, b': map<Ref, Event>)
    requires Calm(h, history) && Transfer(h, history, network, a, b, b') && TransferFits(true, h, size, network, a, b)
    ensures SessionFits(h, size, history, network, a, b) <==> TransferFits(false, h, size, network, b', a)
  {
    hide Calm, Transfer, TransferFits;
    forall other | Transfer(h, history, network, a, b, other) ensures other == b' {
      TransferUnique(h, history, network, a, b, other, b');
    }
  }
}
