/** Runs that start from databases with events in them: when the invariant of all runs holds there. */
module UpgradedWorld {
  import opened Wrappers
  import opened Bytes
  import opened Finite
  import opened Hlc
  import opened Store
  import opened Ingest
  import opened Replication
  import opened Replica
  import opened Migration
  import Convergence
  import World
  import CalmWorld

  /** All envelopes that the nodes hold. */
  ghost function HeldBy(nodes: seq<Node>): set<Event> {
    set k, r | 0 <= k < |nodes| && r in Events(nodes[k].store) :: Events(nodes[k].store)[r]
  }

  ghost predicate AllValid(nodes: seq<Node>) {
    && (forall k :: 0 <= k < |nodes| ==> ValidNode(nodes[k]))
    && (forall k, l :: 0 <= k < |nodes| && 0 <= l < |nodes| && k != l ==> nodes[k].device != nodes[l].device)
  }

  ghost predicate OneStamping(held: set<Event>) {
    forall e, f :: e in held && f in held && e.device == f.device && Stamp(e) == Stamp(f) ==> World.SameOrigin(e, f)
  }

  /** No node holds an event that its device has stamped beyond the clock the device has now. */
  ghost predicate StampedInTime(nodes: seq<Node>) {
    forall e, k :: e in HeldBy(nodes) && 0 <= k < |nodes| && e.device == nodes[k].device ==>
      AtMost(Stamp(e), nodes[k].hlc)
  }

  ghost predicate AllGenuine(h: Hashes, held: set<Event>) {
    forall e {:trigger Genuine(h, e)} :: e in held ==> Genuine(h, e)
  }

  ghost predicate Parses(held: set<Event>) {
    forall e :: e in held ==> !Parse(e).Malformed?
  }

  /** Every resolution is younger than what it resolves. */
  ghost predicate Orders(born: map<Ref, nat>, held: set<Event>) {
    forall e {:trigger World.Older(born, e)} :: e in held ==> World.Older(born, e)
  }

  /** No chain of resolutions runs in a circle. */
  ghost predicate Ordered(held: set<Event>) {
    exists born :: Orders(born, held)
  }

  ghost predicate Startable(h: Hashes, nodes: seq<Node>) {
    && CollisionFree(h) && AllGenuine(h, HeldBy(nodes)) && Parses(HeldBy(nodes)) && Ordered(HeldBy(nodes))
    && OneStamping(HeldBy(nodes)) && StampedInTime(nodes)
  }

  /** What a stored resolution is about is held by some node. */
  ghost predicate TargetsHeld(held: set<Event>) {
    forall e :: e in held && Parse(e).Resolves? ==> TargetOf(e) in Convergence.Refs(held)
  }

  lemma HeldByHolds(nodes: seq<Node>, k: nat, r: Ref)
    requires AllValid(nodes) && k < |nodes| && r in Events(nodes[k].store)
    ensures var e := Events(nodes[k].store)[r];
      e in HeldBy(nodes) && RefOf(e) == r && Normalized(e)
  {
    FindIsEvents(nodes[k].store, r);
  }

  lemma HeldByIsStored(nodes: seq<Node>, e: Event)
    requires AllValid(nodes) && e in HeldBy(nodes)
    ensures Normalized(e) && exists k :: 0 <= k < |nodes| && RefOf(e) in Events(nodes[k].store)
  {
    var k, r :| 0 <= k < |nodes| && r in Events(nodes[k].store) && e == Events(nodes[k].store)[r];
    HeldByHolds(nodes, k, r);
  }

  /** The references in use that are older than r. */
  ghost function OlderThan(born: map<Ref, nat>, held: set<Event>, r: Ref): set<Ref> {
    set s | s in Convergence.Refs(held) && s in born && r in born && born[s] < born[r]
  }

  /** The references in use, by their rank. */
  ghost function BornWith(born: map<Ref, nat>, held: set<Event>): map<Ref, nat> {
    map r | r in Convergence.Refs(held) :: |OlderThan(born, held, r)|
  }

  ghost function StartOf(nodes: seq<Node>, born: map<Ref, nat>): World.World {
    World.World(nodes, HeldBy(nodes), BornWith(born, HeldBy(nodes)))
  }

  lemma RankIsOlder(born: map<Ref, nat>, held: set<Event>, e: Event)
    requires Orders(born, held) && TargetsHeld(held) && e in held
    ensures World.Older(BornWith(born, held), e)
    ensures BornWith(born, held)[RefOf(e)] < |BornWith(born, held)|
  {
    assert World.Older(born, e);
    var refs := Convergence.Refs(held);
    assert RefOf(e) in refs && BornWith(born, held).Keys == refs;
    var before := OlderThan(born, held, RefOf(e));
    SubsetIsSmaller(before, refs - {RefOf(e)});
    if Parse(e).Resolves? {
      var older := OlderThan(born, held, TargetOf(e));
      assert TargetOf(e) in before && TargetOf(e) !in older;
      SubsetIsSmaller(older, before - {TargetOf(e)});
    }
  }

  lemma StartSound(h: Hashes, nodes: seq<Node>, born: map<Ref, nat>, e: Event)
    requires AllValid(nodes) && AllGenuine(h, HeldBy(nodes)) && Parses(HeldBy(nodes)) && TargetsHeld(HeldBy(nodes))
    requires Orders(born, HeldBy(nodes)) && e in HeldBy(nodes)
    ensures World.Sound(h, StartOf(nodes, born), e)
    ensures RefOf(e) in StartOf(nodes, born).born
    ensures StartOf(nodes, born).born[RefOf(e)] < |StartOf(nodes, born).born|
  {
    hide HeldBy, BornWith, Orders, TargetsHeld;
    HeldByIsStored(nodes, e);
    assert Genuine(h, e);
    RankIsOlder(born, HeldBy(nodes), e);
  }

  lemma StartNamed(nodes: seq<Node>, born: map<Ref, nat>)
    ensures World.BornNamed(StartOf(nodes, born))
  {
    hide HeldBy, OlderThan;
    var w := StartOf(nodes, born);
    forall r | r in w.born ensures World.Named(w, r) {
      var e :| e in w.held && RefOf(e) == r;
      assert e in w.held;
    }
  }

  lemma StartHolds(nodes: seq<Node>, born: map<Ref, nat>)
    requires AllValid(nodes)
    ensures World.NodesValid(StartOf(nodes, born)) && World.NodesHold(StartOf(nodes, born))
  {
    hide HeldBy, ValidNode, Events, BornWith;
    forall k | 0 <= k < |nodes| ensures Holds(Events(nodes[k].store), HeldBy(nodes)) {
      forall r | r in Events(nodes[k].store)
        ensures Events(nodes[k].store)[r] in HeldBy(nodes) && RefOf(Events(nodes[k].store)[r]) == r
      {
        HeldByHolds(nodes, k, r);
      }
    }
  }

  /** The invariant of all runs holds of some beginning with these nodes if and only if no event poses as
      a recovered copy, no chain of resolutions runs in a circle, every device has stamped each of its
      events once, and none beyond the clock it has now. */
  lemma StartsIff(h: Hashes, nodes: seq<Node>)
    requires AllValid(nodes) && TargetsHeld(HeldBy(nodes))
    ensures Startable(h, nodes) <==> exists held, born :: World.Inv(h, World.World(nodes, held, born))
  {
    hide HeldBy, AllValid, TargetsHeld, World.Inv, Orders, BornWith;
    if Startable(h, nodes) {
      var born :| Orders(born, HeldBy(nodes));
      StartIsSound(h, nodes, born);
      assert World.Inv(h, World.World(nodes, HeldBy(nodes), BornWith(born, HeldBy(nodes))));
    }
    if held, born :| World.Inv(h, World.World(nodes, held, born)) {
      InvIsStartable(h, nodes, held, born);
    }
  }

  lemma StartIsSound(h: Hashes, nodes: seq<Node>, born: map<Ref, nat>)
    requires AllValid(nodes) && TargetsHeld(HeldBy(nodes)) && Startable(h, nodes) && Orders(born, HeldBy(nodes))
    ensures World.Inv(h, StartOf(nodes, born))
  {
    hide HeldBy, AllValid, CollisionFree, World.Sound, World.NodesValid, World.NodesHold, World.BornNamed, TargetsHeld,
        Orders, OlderThan;
    StartHolds(nodes, born);
    StartNamed(nodes, born);
    var w := StartOf(nodes, born);
    forall e | e in w.held ensures World.Sound(h, w, e) {
      StartSound(h, nodes, born, e);
    }
    forall r | r in w.born ensures w.born[r] < |w.born| {
      var e :| e in HeldBy(nodes) && RefOf(e) == r;
      StartSound(h, nodes, born, e);
    }
  }

  lemma InvIsStartable(h: Hashes, nodes: seq<Node>, held: set<Event>, born: map<Ref, nat>)
    requires World.Inv(h, World.World(nodes, held, born))
    ensures Startable(h, nodes)
  {
    var w := World.World(nodes, held, born);
    forall e | e in HeldBy(nodes) ensures e in held && World.Sound(h, w, e) {
      var k, r :| 0 <= k < |nodes| && r in Events(nodes[k].store) && e == Events(nodes[k].store)[r];
      World.HeldFacts(h, w, k, r);
    }
    assert Orders(born, HeldBy(nodes)) by {
      forall e | e in HeldBy(nodes) ensures World.Older(born, e) {
        assert World.Sound(h, w, e);
      }
    }
    assert AllGenuine(h, HeldBy(nodes)) && Parses(HeldBy(nodes)) by {
      forall e | e in HeldBy(nodes) ensures Genuine(h, e) && !Parse(e).Malformed? {
        assert World.Sound(h, w, e);
      }
    }
  }

  /** If nothing has been observed yet and every resolution is undisputed, the world is also calm, so the
      theorems about synchronization and preserve-both apply. */
  lemma StartsCalm(h: Hashes, nodes: seq<Node>, born: map<Ref, nat>)
    requires AllValid(nodes) && TargetsHeld(HeldBy(nodes)) && Startable(h, nodes) && Orders(born, HeldBy(nodes))
    requires forall k :: 0 <= k < |nodes| ==> nodes[k].store.observed == {}
    ensures CalmWorld.CalmInv(h, StartOf(nodes, born)) <==> CalmWorld.AllUndisputed(h, HeldBy(nodes))
  {
    hide HeldBy, AllValid, World.Inv, Orders, BornWith;
    StartIsSound(h, nodes, born);
  }

  /** The nodes that open upgraded databases. */
  ghost function Opened(dbs: seq<Db>, devices: seq<Text>): seq<Node>
    requires |devices| == |dbs|
  {
    seq(|dbs|, k requires 0 <= k < |dbs| => Node(dbs[k].store, dbs[k].store.clock, devices[k]))
  }

  ghost predicate UpgradedFrom(parse: Parser, legacy: Db, db: Db) {
    && WellFormed(legacy) && (legacy.version.None? || legacy.version == Some(1))
    && exists steps: nat :: Upgrades(parse, legacy, db, steps)
  }

  /** Daemons that open upgraded databases can begin a run, in the sense of the invariant of all runs, if
      and only if every legacy event was complete and the conditions of StartsIff hold; for a daemon on
      its own the last of them always does. */
  lemma UpgradedStart(h: Hashes, parse: Parser, legacy: seq<Db>, dbs: seq<Db>, devices: seq<Text>)
    requires |legacy| == |dbs| == |devices|
    requires forall k {:trigger dbs[k]} :: 0 <= k < |dbs| ==> UpgradedFrom(parse, legacy[k], dbs[k]) && devices[k] != []
    requires forall k, l :: 0 <= k < |dbs| && 0 <= l < |dbs| && k != l ==> devices[k] != devices[l]
    requires TargetsHeld(HeldBy(Opened(dbs, devices)))
    ensures var nodes := Opened(dbs, devices);
      (exists held, born :: World.Inv(h, World.World(nodes, held, born))) <==>
        && (forall k, l :: 0 <= k < |dbs| && l in legacy[k].legacy ==> Complete(legacy[k].legacy[l]))
        && Startable(h, nodes)
    ensures var nodes := Opened(dbs, devices);
      |dbs| == 1 && (forall l :: l in legacy[0].legacy ==> Complete(legacy[0].legacy[l])) ==> StampedInTime(nodes)
  {
    var nodes := Opened(dbs, devices);
    hide UpgradedFrom, Startable, HeldBy, TargetsHeld, StampedInTime, Complete, Valid;
    forall k | 0 <= k < |dbs|
      ensures ValidNode(nodes[k]) <==> forall l :: l in legacy[k].legacy ==> Complete(legacy[k].legacy[l])
    {
      UpgradedIsValid(parse, legacy[k], dbs[k]);
    }
    if forall k, l :: 0 <= k < |dbs| && l in legacy[k].legacy ==> Complete(legacy[k].legacy[l]) {
      assert AllValid(nodes);
      StartsIff(h, nodes);
      if |dbs| == 1 {
        OwnClockCovers(nodes);
      }
    } else {
      var k, l :| 0 <= k < |dbs| && l in legacy[k].legacy && !Complete(legacy[k].legacy[l]);
      forall held, born ensures !World.Inv(h, World.World(nodes, held, born)) {
        InvNeedsValid(h, nodes, held, born, k);
      }
    }
  }

  lemma InvNeedsValid(h: Hashes, nodes: seq<Node>, held: set<Event>, born: map<Ref, nat>, k: nat)
    requires k < |nodes|
    ensures World.Inv(h, World.World(nodes, held, born)) ==> ValidNode(nodes[k])
  {
    hide ValidNode;
  }

  lemma UpgradedIsValid(parse: Parser, legacy: Db, db: Db)
    requires UpgradedFrom(parse, legacy, db)
    ensures Valid(db.store) <==> forall l :: l in legacy.legacy ==> Complete(legacy.legacy[l])
  {
    hide WellFormed, Upgrades, Valid;
    var steps: nat :| Upgrades(parse, legacy, db, steps);
    UpgradeEstablishesInvariant(parse, legacy, db, steps);
  }

  lemma OwnClockCovers(nodes: seq<Node>)
    requires AllValid(nodes) && |nodes| == 1
    ensures StampedInTime(nodes)
  {
    forall e, k | e in HeldBy(nodes) && 0 <= k < |nodes| && e.device == nodes[k].device
      ensures AtMost(Stamp(e), nodes[k].hlc)
    {
      var j, r :| 0 <= j < |nodes| && r in Events(nodes[j].store) && e == Events(nodes[j].store)[r];
    }
  }
}
