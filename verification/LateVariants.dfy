/** When preserve-both fails to copy a variant: exactly the calls that leave a superseded variant
    without its copy, over every run. */
module LateVariants {
  import opened Bytes
  import opened Hlc
  import opened Store
  import opened Ingest
  import opened Replication
  import opened Replica
  import opened Convergence
  import opened PreserveBoth
  import opened World
  import opened CalmWorld

  /** The node holds a variant of r and a resolution of r, and not the variant's copy. */
  ghost predicate Owed(h: Hashes, m: map<Ref, Event>, r: Ref) {
    r in m && r in Superseded(m) && RefOf(Recover(h, m[r])) !in m
  }

  /** The event is new to the node, the node knows its ID to be superseded, and its copy is not there. */
  ghost predicate Late(h: Hashes, m: map<Ref, Event>, e: Event) {
    RefOf(e) !in m && RefOf(e) in Superseded(m) && RefOf(Recover(h, e)) !in m
  }

  /** The event resolves an ID of which the node holds a variant whose copy is not there. */
  ghost predicate Opens(h: Hashes, m: map<Ref, Event>, e: Event, r: Ref) {
    Parse(e).Resolves? && TargetOf(e) == r && r in m && RefOf(Recover(h, m[r])) !in m
  }

  ghost predicate Incurs(h: Hashes, m: map<Ref, Event>, e: Event, r: Ref) {
    (RefOf(e) == r && Late(h, m, e)) || Opens(h, m, e, r)
  }

  /** The event is the missing copy. */
  ghost predicate Settles(h: Hashes, m: map<Ref, Event>, e: Event, r: Ref) {
    r in m && RefOf(e) == RefOf(Recover(h, m[r]))
  }

  lemma NothingToRepairMeans(h: Hashes, m: map<Ref, Event>)
    ensures NothingToRepair(h, m) <==> forall r :: !Owed(h, m, r)
  {
    if !NothingToRepair(h, m) {
      var r :| r in Superseded(m) && !Copied(h, m, r);
      assert Owed(h, m, r);
    }
  }

  /** Storing one event: what a node owes afterwards. */
  lemma OwedAfterStore(h: Hashes, history: set<Event>, m: map<Ref, Event>, e: Event, r: Ref)
    requires Calm(h, history) && Holds(m, history) && (Parse(e).Plain? || e in history)
    requires RefOf(e) in m ==> m[RefOf(e)] == e
    ensures Owed(h, m[RefOf(e) := e], r) <==>
      (Owed(h, m, r) && !Settles(h, m, e, r)) || Incurs(h, m, e, r)
  {
    hide Genuine, CollisionFree;
    var m' := m[RefOf(e) := e];
    SupersededAfterStore(m, e, r);
    if r in Superseded(m') {
      var x := if Parse(e).Resolves? && TargetOf(e) == r then e else SupersededBy(m, r);
      assert Undisputed(h, history, x);
      if r == RefOf(e) {
        CopyIsCopyRef(h, e);
      } else if Parse(e).Resolves? && r in m && RefOf(e) == RefOf(Recover(h, m[r])) {
        GenuineCopy(h, history, m[r], e);
        assert Undisputed(h, history, m[r]);
        assert Parse(m[r]).Plain?;
      }
    }
  }

  ghost function SupersededBy(m: map<Ref, Event>, r: Ref): (x: Event)
    requires r in Superseded(m)
    ensures x in m.Values && Parse(x).Resolves? && TargetOf(x) == r
  {
    var y :| y in m && Parse(m[y]).Resolves? && TargetOf(m[y]) == r;
    m[y]
  }

  lemma SupersededAfterStore(m: map<Ref, Event>, e: Event, r: Ref)
    requires RefOf(e) in m ==> m[RefOf(e)] == e
    ensures r in Superseded(m[RefOf(e) := e]) <==> r in Superseded(m) || (Parse(e).Resolves? && TargetOf(e) == r)
  {
    var m' := m[RefOf(e) := e];
    if r in Superseded(m) {
      var x :| x in m && Parse(m[x]).Resolves? && TargetOf(m[x]) == r;
      assert m'[x] == m[x];
    }
    if Parse(e).Resolves? {
      assert m'[RefOf(e)] == e;
    }
  }

  lemma GenuineCopy(h: Hashes, history: set<Event>, original: Event, e: Event)
    requires Calm(h, history) && e in history && RefOf(e) == RefOf(Recover(h, original))
    ensures e == Recover(h, original)
  {
    assert Genuine(h, e);
  }

  /****** One call ******/

  /** The same for the whole effect of a receive: a resolution makes its copy at once, so only a late
      variant stays owed. */
  lemma OwedAfterAbsorb(h: Hashes, history: set<Event>, m: map<Ref, Event>, e: Event, r: Ref)
    requires Calm(h, history) && Closed(h, history) && Holds(m, history) && e in history
    requires RefOf(e) in m ==> m[RefOf(e)] == e
    ensures Owed(h, Absorb(h, m, e), r) <==>
      (Owed(h, m, r) && !Settles(h, m, e, r) && !(Parse(e).Resolves? && TargetOf(e) == r))
      || (RefOf(e) == r && Late(h, m, e))
  {
    hide Genuine, CollisionFree, Late, Closed, IsCopyRef;
    OwedAfterStore(h, history, m, e, r);
    var stored := m[RefOf(e) := e];
    assert Holds(stored, history);
    if Parse(e).Resolves? {
      assert Undisputed(h, history, e);
      ResolutionIsNotLate(h, history, m, e);
      if TargetOf(e) in m {
        var copy := Recover(h, m[TargetOf(e)]);
        CopyOfTarget(h, history, m, e);
        OwedAfterStore(h, history, stored, copy, r);
        CopyIsNotLate(h, history, stored, m[TargetOf(e)]);
        SettlesOnly(h, history, m, e, r);
      }
    }
  }

  lemma SupersededTarget(h: Hashes, history: set<Event>, m: map<Ref, Event>, r: Ref)
    requires Calm(h, history) && Holds(m, history) && r in Superseded(m)
    ensures !IsCopyRef(h, r) && forall e :: e in history && RefOf(e) == r ==> !Parse(e).Resolves?
  {
    assert Undisputed(h, history, SupersededBy(m, r));
  }

  lemma ResolutionIsNotLate(h: Hashes, history: set<Event>, m: map<Ref, Event>, e: Event)
    requires Calm(h, history) && Holds(m, history) && e in history && Parse(e).Resolves?
    ensures !Late(h, m, e)
  {
    if RefOf(e) in Superseded(m) {
      SupersededTarget(h, history, m, RefOf(e));
    }
  }

  lemma CopyIsNotLate(h: Hashes, history: set<Event>, m: map<Ref, Event>, original: Event)
    requires Calm(h, history) && Holds(m, history)
    ensures !Late(h, m, Recover(h, original))
  {
    CopyIsCopyRef(h, original);
    if RefOf(Recover(h, original)) in Superseded(m) {
      SupersededTarget(h, history, m, RefOf(Recover(h, original)));
    }
  }

  lemma CopyOfTarget(h: Hashes, history: set<Event>, m: map<Ref, Event>, e: Event)
    requires Calm(h, history) && Closed(h, history) && Holds(m, history) && e in history
    requires Parse(e).Resolves? && TargetOf(e) in m
    ensures var copy := Recover(h, m[TargetOf(e)]);
      && Parse(copy).Plain? && copy in history && RefOf(copy) != RefOf(e)
      && (RefOf(copy) in m ==> m[RefOf(copy)] == copy)
  {
    var original := m[TargetOf(e)];
    assert Supersedes(e, original);
    assert Undisputed(h, history, e) && Undisputed(h, history, original);
    CopyIsCopyRef(h, original);
    if RefOf(Recover(h, original)) in m {
      CopiesAgree(h, history, m[RefOf(Recover(h, original))], Recover(h, original));
    }
  }

  /** The copy of one ID's variant is not the copy of another's. */
  lemma SettlesOnly(h: Hashes, history: set<Event>, m: map<Ref, Event>, e: Event, r: Ref)
    requires Calm(h, history) && Closed(h, history) && Holds(m, history) && e in history
    requires Parse(e).Resolves? && TargetOf(e) in m
    ensures var stored := m[RefOf(e) := e];
      r in stored && RefOf(Recover(h, m[TargetOf(e)])) == RefOf(Recover(h, stored[r])) ==> r == TargetOf(e)
    ensures Settles(h, m[RefOf(e) := e], Recover(h, m[TargetOf(e)]), TargetOf(e))
  {
    var stored := m[RefOf(e) := e];
    if r in stored && RefOf(Recover(h, m[TargetOf(e)])) == RefOf(Recover(h, stored[r])) {
      RecoverInjective(h, m[TargetOf(e)], stored[r]);
    }
  }

  /** A node with nothing to repair has nothing to repair after a receive, if and only if what it
      received was not a late variant. */
  lemma ReceiveKeepsRepairedIff(h: Hashes, history: set<Event>, n: Node, e: Event, walls: nat -> Instant, at: nat)
    requires Member(h, history, n) && NothingToRepair(h, Events(n.store)) && e in history && Normalized(e)
    ensures var o := IngestReplicated(h, n, e, walls, at, 1); o.Done? ==>
      (NothingToRepair(h, Events(o.node.store)) <==> !Late(h, Events(n.store), e))
  {
    hide Calm, Closed, Holds, Absorb, Late, NothingToRepair, IngestReplicated, ValidNode, Grows, Events;
    ReceiveIsAbsorb(h, history, n, e, walls, at, 1);
    if IngestReplicated(h, n, e, walls, at, 1).Done? {
      AbsorbKeepsRepairedIff(h, history, Events(n.store), e);
    }
  }

  /** A variant that is new to the node is stored hidden and without a copy if and only if it is late. */
  lemma LateVariantIsHidden(h: Hashes, history: set<Event>, n: Node, e: Event, walls: nat -> Instant, at: nat)
    requires Member(h, history, n) && e in history && Normalized(e) && RefOf(e) !in Events(n.store)
    ensures var o := IngestReplicated(h, n, e, walls, at, 1); o.Done? ==>
      var m := Events(o.node.store);
      && RefOf(e) in m && m[RefOf(e)] == e
      && (RefOf(e) !in Visible(m, e.network) && !Copied(h, m, RefOf(e)) <==> Late(h, Events(n.store), e))
  {
    hide Calm, Closed, Holds, Late, IngestReplicated, ValidNode, Grows, Events, Superseded;
    ReceiveIsAbsorb(h, history, n, e, walls, at, 1);
    if IngestReplicated(h, n, e, walls, at, 1).Done? {
      OwedAfterAbsorb(h, history, Events(n.store), e, RefOf(e));
      StoredByAbsorb(h, history, Events(n.store), e);
    }
  }

  lemma StoredByAbsorb(h: Hashes, history: set<Event>, m: map<Ref, Event>, e: Event)
    requires Calm(h, history) && Closed(h, history) && Holds(m, history) && e in history
    ensures RefOf(e) in Absorb(h, m, e) && Absorb(h, m, e)[RefOf(e)] == e
  {
    if Parse(e).Resolves? && TargetOf(e) in m {
      CopyOfTarget(h, history, m, e);
    }
  }

  lemma AbsorbKeepsRepairedIff(h: Hashes, history: set<Event>, m: map<Ref, Event>, e: Event)
    requires Calm(h, history) && Closed(h, history) && Holds(m, history) && e in history
    requires NothingToRepair(h, m) && (RefOf(e) in m ==> m[RefOf(e)] == e)
    ensures NothingToRepair(h, Absorb(h, m, e)) <==> !Late(h, m, e)
  {
    hide Calm, Closed, Holds, Absorb, Owed, Late, NothingToRepair;
    NothingToRepairMeans(h, m);
    NothingToRepairMeans(h, Absorb(h, m, e));
    forall r: Ref ensures Owed(h, Absorb(h, m, e), r) <==> RefOf(e) == r && Late(h, m, e) {
      OwedAfterAbsorb(h, history, m, e, r);
    }
    assert Late(h, m, e) ==> Owed(h, Absorb(h, m, e), RefOf(e));
  }

  lemma MemberFacts(h: Hashes, history: set<Event>, n: Node)
    requires Member(h, history, n)
    ensures ValidNode(n) && Calm(h, history) && Closed(h, history) && Holds(Events(n.store), history)
  {
  }

  /** An ID that the store does not hold and knows to be superseded. */
  ghost predicate LateId(m: map<Ref, Event>, r: Ref) {
    r !in m && r in Superseded(m)
  }

  /** The same for what a producer ingests here, whose stamp is new: it is late if and only if its ID
      is, which can be told before the call. */
  lemma IngestKeepsRepairedIff(h: Hashes, history: set<Event>, n: Node, q: Request, wall: Instant, mint: Text)
    requires Member(h, history, n) && NothingToRepair(h, Events(n.store)) && mint != []
    ensures var c := IngestInternal(n, q, wall, mint); c.Committed? && Parse(c.event).Plain? ==>
      && (Late(h, Events(n.store), c.event) <==> LateId(Events(n.store), LocalRef(q, mint)))
      && (NothingToRepair(h, Events(c.node.store)) <==> !LateId(Events(n.store), LocalRef(q, mint)))
  {
    var c := IngestInternal(n, q, wall, mint);
    MemberFacts(h, history, n);
    hide Member, Closed;
    IngestInternalEffect(n, q, wall, mint);
    if c.Committed? && Parse(c.event).Plain? {
      var m := Events(n.store);
      if c.created {
        NewStampIsNoCopy(h, history, m, c.event);
      }
      IngestOwes(h, history, n, c);
    }
  }

  lemma IngestOwes(h: Hashes, history: set<Event>, n: Node, c: Commit)
    requires ValidNode(n) && Calm(h, history) && Holds(Events(n.store), history)
    requires NothingToRepair(h, Events(n.store))
    requires c.Committed? && Effect(n, c) && Parse(c.event).Plain?
    ensures NothingToRepair(h, Events(c.node.store)) <==> !Late(h, Events(n.store), c.event)
  {
    hide ValidNode, Late, Calm, Holds, Owed, NothingToRepair, Extends;
    var m := Events(n.store);
    NothingToRepairMeans(h, m);
    NothingToRepairMeans(h, Events(c.node.store));
    assert RefOf(c.event) in m ==> m[RefOf(c.event)] == c.event;
    forall r: Ref ensures Owed(h, Events(c.node.store), r) <==> RefOf(c.event) == r && Late(h, m, c.event) {
      OwedAfterStore(h, history, m, c.event, r);
    }
    assert Late(h, m, c.event) ==> Owed(h, Events(c.node.store), RefOf(c.event));
  }

  lemma NewStampIsNoCopy(h: Hashes, history: set<Event>, m: map<Ref, Event>, e: Event)
    requires Calm(h, history) && Holds(m, history)
    requires forall r :: r in m ==> Before(Stamp(m[r]), Stamp(e))
    ensures RefOf(Recover(h, e)) !in m
  {
    if RefOf(Recover(h, e)) in m {
      GenuineCopy(h, history, e, m[RefOf(Recover(h, e))]);
    }
  }

  /****** Runs of the mesh ******/

  /** The step commits a transaction at node i. */
  ghost predicate StoresAt(h: Hashes, w: World, s: Step, i: nat) {
    Enabled(h, w, s) && !s.Observe? && !s.Restart? && s.i == i && Run(h, w, s).Committed?
  }

  ghost function HeldAt(w: World, i: nat): map<Ref, Event>
    requires i < |w.nodes|
  {
    Events(w.nodes[i].store)
  }

  ghost predicate StepIncurs(h: Hashes, w: World, s: Step, i: nat, r: Ref) {
    i < |w.nodes| && StoresAt(h, w, s, i) && Incurs(h, HeldAt(w, i), Run(h, w, s).event, r)
  }

  ghost predicate StepSettles(h: Hashes, w: World, s: Step, i: nat, r: Ref) {
    i < |w.nodes| && StoresAt(h, w, s, i) && Settles(h, HeldAt(w, i), Run(h, w, s).event, r)
  }

  ghost predicate StepLate(h: Hashes, w: World, s: Step, i: nat, r: Ref) {
    && i < |w.nodes| && StoresAt(h, w, s, i)
    && RefOf(Run(h, w, s).event) == r && Late(h, HeldAt(w, i), Run(h, w, s).event)
  }

  lemma StepStores(h: Hashes, w: World, s: Step, i: nat)
    requires CalmInv(h, w) && Enabled(h, w, s) && Considerate(w, s) && i < |w.nodes|
    ensures |Next(h, w, s).nodes| == |w.nodes| && w.held <= Next(h, w, s).held
    ensures StoresAt(h, w, s, i) ==>
      var e := Run(h, w, s).event;
      && HeldAt(Next(h, w, s), i) == HeldAt(w, i)[RefOf(e) := e] && e in Next(h, w, s).held
      && (RefOf(e) in HeldAt(w, i) ==> HeldAt(w, i)[RefOf(e)] == e)
    ensures !StoresAt(h, w, s, i) ==> HeldAt(Next(h, w, s), i) == HeldAt(w, i)
  {
    hide PrimaryKeyed, IdsIndexed, ArrivalsIndexed, ClockCovers, Extends, CollisionFree, Peaceful, Inv,
        ObservedDisputable, AllUndisputed;
    if StoresAt(h, w, s, i) {
      EffectOfStep(h, w, s);
    }
  }

  lemma EffectOfStep(h: Hashes, w: World, s: Step)
    requires CalmInv(h, w) && Enabled(h, w, s) && Considerate(w, s) && !s.Observe? && !s.Restart?
    requires Run(h, w, s).Committed?
    ensures s.i < |w.nodes| && ValidNode(w.nodes[s.i]) && Effect(w.nodes[s.i], Run(h, w, s))
  {
    assert NodesValid(w) by { CalmIsValid(h, w); }
    hide CalmInv, Effect, Peaceful, Enabled, Run, ValidNode;
    match s {
      case Local(_, _, _, _) => LocalIsPeaceful(h, w, s);
      case Resolve(_, _, _, _) => ResolveIsPeaceful(h, w, s);
      case Receive(_, _, _, _) => ReceiveIsPeaceful(h, w, s);
      case Copy(_, _, _) => CopyIsPeaceful(h, w, s);
    }
  }

  lemma CalmIsValid(h: Hashes, w: World)
    requires CalmInv(h, w)
    ensures NodesValid(w) && NodesHold(w)
  {
  }

  ghost predicate OwedAt(h: Hashes, w: World, i: nat, r: Ref) {
    i < |w.nodes| && Owed(h, HeldAt(w, i), r)
  }

  /** One step: what node i owes afterwards. */
  lemma StepOwed(h: Hashes, w: World, s: Step, i: nat, r: Ref)
    requires CalmInv(h, w) && Enabled(h, w, s) && Considerate(w, s) && i < |w.nodes|
    ensures OwedAt(h, Next(h, w, s), i, r) <==>
      (OwedAt(h, w, i, r) && !StepSettles(h, w, s, i, r)) || StepIncurs(h, w, s, i, r)
  {
    var w' := Next(h, w, s);
    StepStores(h, w, s, i);
    StepKeepsCalm(h, w, s);
    HeldIsCalm(h, w');
    CalmIsValid(h, w);
    assert Holds(HeldAt(w, i), w'.held) by { HoldsMore(w, w', i); }
    hide Calm, CalmInv, Enabled, Considerate, Next, Run, Owed, Incurs, Settles, Holds, HeldAt;
    if StoresAt(h, w, s, i) {
      OwedAfterStore(h, w'.held, HeldAt(w, i), Run(h, w, s).event, r);
    }
  }

  lemma HoldsMore(w: World, w': World, i: nat)
    requires NodesValid(w) && NodesHold(w) && i < |w.nodes| && w.held <= w'.held
    ensures Holds(HeldAt(w, i), w'.held)
  {
    assert Holds(Events(w.nodes[i].store), w.held);
  }

  /** Producers never reuse the IDs of resolutions. */
  ghost predicate AllConsiderate(ws: seq<World>, ss: seq<Step>) {
    forall k {:trigger Considerate(ws[k], ss[k])} :: 0 <= k < |ss| && k < |ws| ==> Considerate(ws[k], ss[k])
  }

  ghost predicate CalmTrace(h: Hashes, ws: seq<World>, ss: seq<Step>) {
    Trace(h, ws, ss) && AllConsiderate(ws, ss) && CalmInv(h, ws[0])
  }

  lemma {:induction false} TraceStaysCalm(h: Hashes, ws: seq<World>, ss: seq<Step>, k: nat)
    requires CalmTrace(h, ws, ss) && k <= |ss|
    ensures CalmInv(h, ws[k]) && |ws[k].nodes| == |ws[0].nodes|
    decreases k
  {
    hide CalmInv, Enabled, Considerate, Next;
    if k > 0 {
      TraceStaysCalm(h, ws, ss, k - 1);
      assert TraceStep(h, ws, ss, k - 1);
      StepKeepsCalm(h, ws[k - 1], ss[k - 1]);
      StepKeepsNodes(h, ws[k - 1], ss[k - 1]);
    }
  }

  /** Step k - 1 made node i owe r; for k == 0, it did from the start. */
  ghost predicate Begins(h: Hashes, ws: seq<World>, ss: seq<Step>, i: nat, r: Ref, k: nat) {
    if k == 0 then |ws| > 0 && OwedAt(h, ws[0], i, r)
    else k <= |ws| && k <= |ss| && StepIncurs(h, ws[k - 1], ss[k - 1], i, r)
  }

  /** One of the steps from k on, before step n, has stored the copy. */
  ghost predicate SettledSince(h: Hashes, ws: seq<World>, ss: seq<Step>, i: nat, r: Ref, k: nat, n: nat) {
    exists l :: k <= l < n && l < |ws| && l < |ss| && StepSettles(h, ws[l], ss[l], i, r)
  }

  ghost predicate OwedSince(h: Hashes, ws: seq<World>, ss: seq<Step>, i: nat, r: Ref, k: nat, n: nat) {
    k <= n && Begins(h, ws, ss, i, r, k) && !SettledSince(h, ws, ss, i, r, k, n)
  }

  ghost predicate IncurredAndNotSettled(h: Hashes, ws: seq<World>, ss: seq<Step>, i: nat, r: Ref, n: nat) {
    exists k: nat :: OwedSince(h, ws, ss, i, r, k, n)
  }

  /** Over every run: a node owes a copy if and only if some step incurred it and no step has stored the
      copy since. */
  lemma {:induction false} OwedIffIncurred(h: Hashes, ws: seq<World>, ss: seq<Step>, i: nat, r: Ref, n: nat)
    requires CalmTrace(h, ws, ss) && i < |ws[0].nodes| && n <= |ss|
    ensures OwedAt(h, ws[n], i, r) <==> IncurredAndNotSettled(h, ws, ss, i, r, n)
    decreases n
  {
    hide CalmInv, OwedAt, StepIncurs, StepSettles, SettledSince, OwedSince;
    if n == 0 {
      OwedAtStart(h, ws, ss, i, r);
    } else {
      OwedIffIncurred(h, ws, ss, i, r, n - 1);
      TraceStaysCalm(h, ws, ss, n - 1);
      assert TraceStep(h, ws, ss, n - 1);
      hide Enabled, Considerate, Next, Trace, IncurredAndNotSettled;
      StepOwed(h, ws[n - 1], ss[n - 1], i, r);
      IncurredStep(h, ws, ss, i, r, n);
    }
  }

  lemma OwedAtStart(h: Hashes, ws: seq<World>, ss: seq<Step>, i: nat, r: Ref)
    requires |ws| > 0
    ensures IncurredAndNotSettled(h, ws, ss, i, r, 0) <==> OwedAt(h, ws[0], i, r)
  {
    hide OwedAt, StepSettles;
    assert OwedSince(h, ws, ss, i, r, 0, 0) <==> OwedAt(h, ws[0], i, r);
  }

  lemma IncurredStep(h: Hashes, ws: seq<World>, ss: seq<Step>, i: nat, r: Ref, n: nat)
    requires 0 < n <= |ss| && n <= |ws|
    ensures IncurredAndNotSettled(h, ws, ss, i, r, n) <==>
      || (IncurredAndNotSettled(h, ws, ss, i, r, n - 1) && !StepSettles(h, ws[n - 1], ss[n - 1], i, r))
      || StepIncurs(h, ws[n - 1], ss[n - 1], i, r)
  {
    hide OwedAt, StepIncurs, StepSettles, SettledSince;
    var before: nat := n - 1;
    if k: nat :| OwedSince(h, ws, ss, i, r, k, n) {
      if k < n {
        SettledOneMore(h, ws, ss, i, r, k, n);
        assert OwedSince(h, ws, ss, i, r, k, before);
      }
    }
    if k: nat :| OwedSince(h, ws, ss, i, r, k, before) {
      SettledOneMore(h, ws, ss, i, r, k, n);
      assert !StepSettles(h, ws[n - 1], ss[n - 1], i, r) ==> OwedSince(h, ws, ss, i, r, k, n);
    }
    assert OwedSince(h, ws, ss, i, r, n, n) <==> StepIncurs(h, ws[n - 1], ss[n - 1], i, r) by {
      NothingSettledYet(h, ws, ss, i, r, n);
    }
  }

  lemma NothingSettledYet(h: Hashes, ws: seq<World>, ss: seq<Step>, i: nat, r: Ref, n: nat)
    ensures !SettledSince(h, ws, ss, i, r, n, n)
  {
  }

  lemma SettledOneMore(h: Hashes, ws: seq<World>, ss: seq<Step>, i: nat, r: Ref, k: nat, n: nat)
    requires k < n <= |ss| && n <= |ws|
    ensures SettledSince(h, ws, ss, i, r, k, n) <==>
      SettledSince(h, ws, ss, i, r, k, n - 1) || StepSettles(h, ws[n - 1], ss[n - 1], i, r)
  {
    hide StepSettles;
  }

  /** The step stores a resolution of an ID of which node i holds a variant without its copy. */
  ghost predicate StepOpens(h: Hashes, w: World, s: Step, i: nat, r: Ref) {
    i < |w.nodes| && StoresAt(h, w, s, i) && Opens(h, HeldAt(w, i), Run(h, w, s).event, r)
  }

  ghost predicate PromptAt(h: Hashes, ws: seq<World>, ss: seq<Step>, i: nat, k: nat, r: Ref) {
    k < |ss| && k < |ws| && StepOpens(h, ws[k], ss[k], i, r) ==>
      k + 1 < |ss| && k + 1 < |ws| && StepSettles(h, ws[k + 1], ss[k + 1], i, r)
  }

  /** No crash and no missing resource separates a resolution from the copy it calls for at node i. */
  ghost predicate Prompt(h: Hashes, ws: seq<World>, ss: seq<Step>, i: nat) {
    forall k: nat, r: Ref {:trigger PromptAt(h, ws, ss, i, k, r)} :: PromptAt(h, ws, ss, i, k, r)
  }

  /** Step k was late for r, and nobody has sent the copy since. */
  ghost predicate LateSince(h: Hashes, ws: seq<World>, ss: seq<Step>, i: nat, r: Ref, k: nat) {
    && k < |ss| && k < |ws| && StepLate(h, ws[k], ss[k], i, r)
    && !SettledSince(h, ws, ss, i, r, k + 1, |ss|)
  }

  /** Where every copy is made at once, a node that started with nothing to repair lacks a copy if and
      only if a late variant of the ID arrived or was ingested and nobody has sent its copy since. */
  lemma RepairLostOnlyByLateSteps(h: Hashes, ws: seq<World>, ss: seq<Step>, i: nat, r: Ref)
    requires CalmTrace(h, ws, ss) && i < |ws[0].nodes| && Prompt(h, ws, ss, i)
    requires NothingToRepair(h, HeldAt(ws[0], i))
    ensures OwedAt(h, ws[|ss|], i, r) <==> exists k: nat :: LateSince(h, ws, ss, i, r, k)
  {
    OwedIffIncurred(h, ws, ss, i, r, |ss|);
    NothingToRepairMeans(h, HeldAt(ws[0], i));
    assert !OwedAt(h, ws[0], i, r);
    hide CalmInv, OwedAt, Trace, NothingToRepair, StepSettles, LateSince, OwedSince, Prompt;
    if k: nat :| OwedSince(h, ws, ss, i, r, k, |ss|) {
      IncurredWasLate(h, ws, ss, i, r, k);
    }
    if k: nat :| LateSince(h, ws, ss, i, r, k) {
      LateWasIncurred(h, ws, ss, i, r, k);
    }
  }

  lemma IncurredWasLate(h: Hashes, ws: seq<World>, ss: seq<Step>, i: nat, r: Ref, k: nat)
    requires |ws| == |ss| + 1 && Prompt(h, ws, ss, i) && !OwedAt(h, ws[0], i, r)
    requires OwedSince(h, ws, ss, i, r, k, |ss|)
    ensures k > 0 && LateSince(h, ws, ss, i, r, k - 1)
  {
    hide OwedAt, StepIncurs, StepLate, StepOpens, StepSettles;
    assert PromptAt(h, ws, ss, i, k - 1, r);
    LateOrOpens(h, ws[k - 1], ss[k - 1], i, r);
  }

  lemma LateWasIncurred(h: Hashes, ws: seq<World>, ss: seq<Step>, i: nat, r: Ref, k: nat)
    requires LateSince(h, ws, ss, i, r, k)
    ensures OwedSince(h, ws, ss, i, r, k + 1, |ss|)
  {
    hide StepIncurs, StepLate, StepOpens, StepSettles;
    LateOrOpens(h, ws[k], ss[k], i, r);
  }

  lemma LateOrOpens(h: Hashes, w: World, s: Step, i: nat, r: Ref)
    ensures StepIncurs(h, w, s, i, r) <==> StepLate(h, w, s, i, r) || StepOpens(h, w, s, i, r)
  {
  }

  /** Which steps are late, told before they happen: a producer's new event under an ID that the node
      knows to be superseded and does not hold, and another node's variant of such an ID unless its
      copy has come first. */
  lemma LateStepsExactly(h: Hashes, w: World, s: Step, i: nat, r: Ref)
    requires CalmInv(h, w) && Enabled(h, w, s) && Considerate(w, s) && StoresAt(h, w, s, i)
    ensures i < |w.nodes|
    ensures StepLate(h, w, s, i, r) <==> LateId(HeldAt(w, i), r) && match s
      case Local(_, q, _, mint) => LocalRef(q, mint) == r
      case Receive(_, j, x, _) => x == r && RefOf(Recover(h, HeldAt(w, j)[x])) !in HeldAt(w, i)
      case _ => false
  {
    match s {
      case Local(_, _, _, _) => LocalLate(h, w, s);
      case Receive(_, _, _, _) => ReceiveLate(h, w, s);
      case Resolve(_, _, _, _) => OwnStepsAreNotLate(h, w, s);
      case Copy(_, _, _) => OwnStepsAreNotLate(h, w, s);
    }
  }

  lemma LocalLate(h: Hashes, w: World, s: Step)
    requires CalmInv(h, w) && Enabled(h, w, s) && Considerate(w, s) && s.Local? && StoresAt(h, w, s, s.i)
    ensures s.i < |w.nodes| && RefOf(Run(h, w, s).event) == LocalRef(s.q, s.mint)
    ensures Late(h, HeldAt(w, s.i), Run(h, w, s).event) <==> LateId(HeldAt(w, s.i), LocalRef(s.q, s.mint))
  {
    CalmIsValid(h, w);
    HeldIsCalm(h, w);
    HoldsMore(w, w, s.i);
    hide CalmInv, Calm, PrimaryKeyed, IdsIndexed, ArrivalsIndexed, ClockCovers, Extends, Superseded, Considerate,
        Effect;
    IngestInternalEffect(w.nodes[s.i], s.q, s.wall, s.mint);
    if Run(h, w, s).created {
      NewStampIsNoCopy(h, w.held, HeldAt(w, s.i), Run(h, w, s).event);
    } else {
      FoundIsHeld(w.nodes[s.i], Run(h, w, s));
    }
  }

  lemma FoundIsHeld(n: Node, c: Commit)
    requires ValidNode(n) && c.Committed? && Effect(n, c) && !c.created
    ensures RefOf(c.event) in Events(n.store)
  {
  }

  lemma ReceiveLate(h: Hashes, w: World, s: Step)
    requires CalmInv(h, w) && Enabled(h, w, s) && s.Receive? && StoresAt(h, w, s, s.i)
    ensures s.i < |w.nodes| && s.j < |w.nodes| && s.r in HeldAt(w, s.j)
    ensures Run(h, w, s).event == HeldAt(w, s.j)[s.r] && RefOf(HeldAt(w, s.j)[s.r]) == s.r
  {
    CalmIsValid(h, w);
    EventReceived(h, w, s.i, s.j, s.r, s.wall);
    assert Holds(Events(w.nodes[s.j].store), w.held);
  }

  lemma OwnStepsAreNotLate(h: Hashes, w: World, s: Step)
    requires CalmInv(h, w) && Enabled(h, w, s) && (s.Resolve? || s.Copy?) && StoresAt(h, w, s, s.i)
    ensures s.i < |w.nodes| && !Late(h, HeldAt(w, s.i), Run(h, w, s).event)
  {
    var m := HeldAt(w, s.i);
    var w' := Next(h, w, s);
    StepStores(h, w, s, s.i);
    StepKeepsCalm(h, w, s);
    HeldIsCalm(h, w');
    CalmIsValid(h, w);
    HoldsMore(w, w', s.i);
    assert Inv(h, w);
    hide CalmInv, Calm, Next, Late, Inv;
    if s.Resolve? {
      ResolveEnters(h, w, s);
      ResolutionIsNotLate(h, w'.held, m, Run(h, w, s).event);
    } else {
      CopyReceived(h, w, s.i, s.x, s.wall);
      CopyIsNotLate(h, w'.held, m, m[TargetOf(m[s.x])]);
    }
  }
}
