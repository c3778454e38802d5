/** What preserve-both guarantees: a received event has exactly the effect that the session theorems
    assume, every copied variant is shown everywhere under its own ID, and what is not copied yet
    is repaired by reconciliation. */
module PreserveBoth {
  import opened Wrappers
  import opened Bytes
  import opened Hlc
  import opened Store
  import opened Ingest
  import opened Replication
  import opened Replica
  import opened Session
  import opened Convergence
  import World
  import CalmWorld

  /** The replicas of a calm world form a quiescent mesh as soon as no new event appears. */
  lemma CalmWorldIsQuiescent(h: Hashes, w: World.World, ms: Replicas)
    requires CalmWorld.CalmInv(h, w) && |ms| == |w.nodes|
    requires forall k :: 0 <= k < |ms| ==> ms[k] == Events(w.nodes[k].store)
    ensures Quiescent(h, Completion(h, w.held), ms)
  {
    CalmWorld.HeldIsCalm(h, w);
    CompletionIsCalmAndClosed(h, w.held);
    forall k | 0 <= k < |ms| ensures Holds(ms[k], Completion(h, w.held)) {
      assert Holds(Events(w.nodes[k].store), w.held);
    }
  }

  /** A node of a calm mesh. */
  ghost predicate Member(h: Hashes, history: set<Event>, n: Node) {
    ValidNode(n) && Calm(h, history) && Closed(h, history) && Holds(Events(n.store), history)
  }

  ghost predicate OutOfResources(o: Outcome) {
    o.Failed? && (o.error.ClockFailed? || o.error.SequenceExhausted?)
  }

  lemma StoreIsHolding(h: Hashes, history: set<Event>, n: Node, e: Event, wall: Instant)
    requires Member(h, history, n) && Normalized(e) && e in history
    ensures var c := ApplyReplicated(n, e, wall);
      if c.Committed? then
        && Member(h, history, c.node) && c.event == e && c.created == (RefOf(e) !in Events(n.store))
        && Events(c.node.store) == Events(n.store)[RefOf(e) := e]
      else
        c.error.ClockFailed? || c.error.SequenceExhausted?
          || (RefOf(e) in Events(n.store) && Events(n.store)[RefOf(e)] != e)
  {
    hide PrimaryKeyed, IdsIndexed, ArrivalsIndexed, ClockCovers, Extends, Calm, Closed;
    FindIsEvents(n.store, RefOf(e));
    ApplyReplicatedEffect(n, e, wall);
  }

  /** The node's own variant of what a resolution supersedes is copied, or a resource has run out. */
  lemma MaterializeIsCopy(h: Hashes, history: set<Event>, n: Node, x: Event, walls: nat -> Instant, at: nat, fuel: nat)
    requires Member(h, history, n) && x in history && Parse(x).Resolves? && fuel > 0
    ensures var o := Materialize(h, n, TargetOf(x), walls, at, fuel);
      var m := Events(n.store);
      if TargetOf(x) !in m then o == Done(n, None, false)
      else
        var copy := Recover(h, m[TargetOf(x)]);
        && Parse(copy).Plain?
        && (RefOf(copy) in m ==> o == Done(n, Some(copy), false) && m[RefOf(copy)] == copy)
        && (OutOfResources(o) || (o.Done? && o.created == (RefOf(copy) !in m)))
        && (o.Failed? ==> o.node == n)
        && (o.Done? ==> Member(h, history, o.node) && Events(o.node.store) == m[RefOf(copy) := copy])
  {
    hide PrimaryKeyed, IdsIndexed, ArrivalsIndexed, ClockCovers, Extends, Genuine;
    var m := Events(n.store);
    FindIsEvents(n.store, TargetOf(x));
    if TargetOf(x) in m {
      var original := m[TargetOf(x)];
      var copy := Recover(h, original);
      assert Undisputed(h, history, x) && Undisputed(h, history, original);
      assert Supersedes(x, original);
      assert Parse(copy).Plain? && Normalized(copy);
      CopyFits(h, history, n, original);
      StoreIsHolding(h, history, n, copy, walls(at));
    }
  }

  lemma CopyFits(h: Hashes, history: set<Event>, n: Node, original: Event)
    requires Member(h, history, n) && Recover(h, original) in history
    ensures RefOf(Recover(h, original)) in Events(n.store) ==>
      Events(n.store)[RefOf(Recover(h, original))] == Recover(h, original)
  {
    var copy := Recover(h, original);
    CopyIsCopyRef(h, original);
    if RefOf(copy) in Events(n.store) {
      CopiesAgree(h, history, Events(n.store)[RefOf(copy)], copy);
    }
  }

  /** In a calm mesh a received event has exactly the effect the session theorems assume, nested
      receives go one level deep, and a receive fails only for want of a resource or because the
      node holds another envelope under that ID. */
  lemma ReceiveIsAbsorb(h: Hashes, history: set<Event>, n: Node, e: Event, walls: nat -> Instant, at: nat, fuel: nat)
    requires Member(h, history, n) && e in history && Normalized(e) && fuel > 0
    ensures var o := IngestReplicated(h, n, e, walls, at, fuel);
      var m := Events(n.store);
      || (OutOfResources(o) && Member(h, history, o.node) && Grows(m, Events(o.node.store), history))
      || (o == Failed(n, DifferentContent) && RefOf(e) in m && m[RefOf(e)] != e)
      || (&& o.Done? && o.created == (RefOf(e) !in m) && Member(h, history, o.node)
          && (RefOf(e) in m ==> m[RefOf(e)] == e)
          && Events(o.node.store) == Absorb(h, m, e))
  {
    hide PrimaryKeyed, IdsIndexed, ArrivalsIndexed, ClockCovers, Extends, Genuine;
    assert Undisputed(h, history, e);
    FindIsEvents(n.store, RefOf(e));
    StoreIsHolding(h, history, n, e, walls(at));
    var c := ApplyReplicated(n, e, walls(at));
    hide Calm, Closed, Holds, Undisputed;
    if c.Committed? && Parse(e).Resolves? {
      MaterializeIsCopy(h, history, c.node, e, walls, at + 1, fuel);
    }
  }

  /****** Losslessness ******/

  /** Node k's own variant of a superseded ID has its copy at node k. */
  ghost predicate Copied(h: Hashes, m: map<Ref, Event>, r: Ref) {
    r in m ==> RefOf(Recover(h, m[r])) in m
  }

  /** Every variant that a node holds of an ID it knows to be superseded has its copy there. */
  ghost predicate NothingToRepair(h: Hashes, m: map<Ref, Event>) {
    forall r :: r in Superseded(m) ==> Copied(h, m, r)
  }

  /** Once a connected mesh is idle, a superseded ID is shown nowhere, and a variant of it is shown,
      everywhere and unchanged, if and only if some node holds its copy. */
  lemma VariantShownIffCopied(h: Hashes, history: set<Event>, network: Text, ms: Replicas, i: nat, k: nat, r: Ref,
      x: Event)
    requires Quiescent(h, history, ms) && Connected(network, ms) && i < |ms| && k < |ms|
    requires x in ms[k].Values && Parse(x).Resolves? && TargetOf(x) == r && r.network == network && r in ms[k]
    ensures r !in Visible(ms[i], network)
    ensures var copy := Recover(h, ms[k][r]);
      (exists j :: 0 <= j < |ms| && RefOf(copy) in ms[j]) <==>
        RefOf(copy) in Visible(ms[i], network) && Visible(ms[i], network)[RefOf(copy)] == copy
  {
    hide Connected, Calm, Closed;
    assert Holds(ms[k], history) && Holds(ms[i], history);
    var y :| y in ms[k] && ms[k][y] == x;
    assert r in Superseded(ms[k]);
    IdleMeshConverged(h, history, network, ms, i, k);
    var copy := Recover(h, ms[k][r]);
    assert copy in history by {
      CopyInHistory(h, history, x, ms[k][r]);
    }
    if j :| 0 <= j < |ms| && RefOf(copy) in ms[j] {
      assert Holds(ms[j], history);
      CopyVisible(h, history, network, ms[j], ms[k][r]);
      IdleMeshConverged(h, history, network, ms, j, i);
      CopyIsCopyRef(h, ms[k][r]);
      CopiesAgree(h, history, ms[i][RefOf(copy)], copy);
    }
  }

  lemma CopyInHistory(h: Hashes, history: set<Event>, x: Event, e: Event)
    requires Closed(h, history) && x in history && e in history && Parse(x).Resolves? && TargetOf(x) == RefOf(e)
    ensures Recover(h, e) in history
  {
    assert Supersedes(x, e);
  }

  /** Every node shows each distinct variant that any node copied exactly once: two variants of one
      ID never share a copy, and no copy stands under a superseded ID. */
  lemma PreserveBothIsLossless(h: Hashes, history: set<Event>, network: Text, ms: Replicas, i: nat, r: Ref, x: Event,
      k: nat, l: nat)
    requires Quiescent(h, history, ms) && Connected(network, ms) && i < |ms| && k < |ms| && l < |ms|
    requires x in ms[k].Values && Parse(x).Resolves? && TargetOf(x) == r && r.network == network
    requires r in ms[k] && Copied(h, ms[k], r) && r in ms[l] && Copied(h, ms[l], r)
    ensures r !in Visible(ms[i], network)
    ensures forall v :: v in {ms[k][r], ms[l][r]} ==>
      RefOf(Recover(h, v)) in Visible(ms[i], network) && Visible(ms[i], network)[RefOf(Recover(h, v))] == Recover(h, v)
    ensures ms[k][r] != ms[l][r] ==> RefOf(Recover(h, ms[k][r])) != RefOf(Recover(h, ms[l][r]))
  {
    hide Closed, Connected;
    VariantShownIffCopied(h, history, network, ms, i, k, r, x);
    IdleMeshConverged(h, history, network, ms, l, k);
    assert Holds(ms[k], history) && Holds(ms[l], history);
    var y :| y in ms[k] && ms[k][y] == x;
    assert r in Superseded(ms[k]);
    var z :| z in ms[l] && Parse(ms[l][z]).Resolves? && TargetOf(ms[l][z]) == r;
    VariantShownIffCopied(h, history, network, ms, i, l, r, ms[l][z]);
    if ms[k][r] != ms[l][r] && RefOf(Recover(h, ms[k][r])) == RefOf(Recover(h, ms[l][r])) {
      RecoverInjective(h, ms[k][r], ms[l][r]);
    }
  }

  /** Resolving an observed conflict, in any calm world, hides the ID and shows the node's own variant
      unchanged under its recovered ID, or a resource has run out on the way. */
  lemma ResolvingPreservesVariant(h: Hashes, w: World.World, s: World.Step, walls: nat -> Instant)
    requires CalmWorld.CalmInv(h, w) && s.Resolve? && World.Enabled(h, w, s) && World.Run(h, w, s).Committed?
    ensures s.i < |w.nodes| && s.r in Events(w.nodes[s.i].store)
    ensures var o := Materialize(h, World.Run(h, w, s).node, s.r, walls, 0, 1);
      var copy := Recover(h, Events(w.nodes[s.i].store)[s.r]);
      OutOfResources(o) || (
        && o.Done? && ValidNode(o.node)
        && s.r !in Visible(Events(o.node.store), s.r.network)
        && RefOf(copy) in Visible(Events(o.node.store), s.r.network)
        && Visible(Events(o.node.store), s.r.network)[RefOf(copy)] == copy)
  {
    var w' := World.Next(h, w, s);
    var history := Completion(h, w'.held);
    ResolutionStored(h, w, s);
    CalmWorld.StepKeepsCalm(h, w, s);
    NodeIsMember(h, w', s.i);
    hide World.Enabled, World.Next, World.Run, CalmWorld.CalmInv, Completion, Member;
    var n := w'.nodes[s.i];
    var x, variant := World.Run(h, w, s).event, Events(w.nodes[s.i].store)[s.r];
    MaterializeIsCopy(h, history, n, x, walls, 0, 1);
    var o := Materialize(h, n, s.r, walls, 0, 1);
    if o.Done? {
      ShownAfterCopy(h, history, o.node, Events(n.store), x, variant);
    }
  }

  lemma ResolutionStored(h: Hashes, w: World.World, s: World.Step)
    requires CalmWorld.CalmInv(h, w) && s.Resolve? && World.Enabled(h, w, s) && World.Run(h, w, s).Committed?
    ensures var c := World.Run(h, w, s);
      var w' := World.Next(h, w, s);
      && s.i < |w'.nodes| == |w.nodes| && w'.nodes[s.i] == c.node
        && c.event in w'.held && s.r in Events(w.nodes[s.i].store)
      && Parse(c.event).Resolves? && TargetOf(c.event) == s.r
      && RefOf(c.event) in Events(c.node.store) && Events(c.node.store)[RefOf(c.event)] == c.event
      && s.r in Events(c.node.store) && Events(c.node.store)[s.r] == Events(w.nodes[s.i].store)[s.r]
      && RefOf(Events(w.nodes[s.i].store)[s.r]) == s.r
  {
    hide PrimaryKeyed, IdsIndexed, ArrivalsIndexed, ClockCovers, Extends;
    World.ResolveEnters(h, w, s);
    World.HeldFacts(h, w, s.i, s.r);
  }

  lemma NodeIsMember(h: Hashes, w: World.World, i: nat)
    requires CalmWorld.CalmInv(h, w) && i < |w.nodes|
    ensures Member(h, Completion(h, w.held), w.nodes[i]) && w.held <= Completion(h, w.held)
  {
    hide PrimaryKeyed, IdsIndexed, ArrivalsIndexed, ClockCovers;
    CalmWorld.HeldIsCalm(h, w);
    CompletionIsCalmAndClosed(h, w.held);
    assert Holds(Events(w.nodes[i].store), w.held);
  }

  lemma ShownAfterCopy(h: Hashes, history: set<Event>, n: Node, m: map<Ref, Event>, x: Event, variant: Event)
    requires Member(h, history, n) && Parse(x).Resolves? && TargetOf(x) == RefOf(variant)
    requires RefOf(x) in m && m[RefOf(x)] == x && RefOf(variant) in m && m[RefOf(variant)] == variant
    requires RefOf(Recover(h, variant)) in m ==> m[RefOf(Recover(h, variant))] == Recover(h, variant)
    requires Events(n.store) == m[RefOf(Recover(h, variant)) := Recover(h, variant)]
    ensures ValidNode(n)
    ensures RefOf(variant) !in Visible(Events(n.store), variant.network)
    ensures RefOf(Recover(h, variant)) in Visible(Events(n.store), variant.network)
    ensures Visible(Events(n.store), variant.network)[RefOf(Recover(h, variant))] == Recover(h, variant)
  {
    hide PrimaryKeyed, IdsIndexed, ArrivalsIndexed, ClockCovers, Calm, Closed;
    CopyVisible(h, history, variant.network, Events(n.store), variant);
    assert Events(n.store)[RefOf(x)] == x by {
      if RefOf(x) == RefOf(Recover(h, variant)) {
        assert m[RefOf(x)] == Recover(h, variant);
      }
    }
    assert RefOf(variant) in Superseded(Events(n.store));
  }
}
