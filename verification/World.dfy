/** Runs of N daemons, one transaction at a time: every interleaving of ingests, comparisons,
    resolutions, receives, copies and restarts, with a crash possible between any two of them. */
module World {
  import opened Bytes
  import opened Hlc
  import opened Store
  import opened Ingest
  import opened Replication
  import opened Replica
  import Termination

  /** The daemons, every envelope any of them has stored so far, and the order in which references
      came into use. */
  datatype World = World(nodes: seq<Node>, held: set<Event>, born: map<Ref, nat>)

  datatype Step =
    | Local(i: nat, q: Request, wall: Instant, mint: Text)
    | Observe(i: nat, j: nat, r: Ref)
    | Resolve(i: nat, r: Ref, wall: Instant, mint: Text)
    | Receive(i: nat, j: nat, r: Ref, wall: Instant)
    | Copy(i: nat, x: Ref, wall: Instant)
    | Restart(i: nat)

  function ResolutionRequest(r: Ref): Request {
    Request(r.network, RESOLUTION_STREAM, 0, [], Resolution(1, r.id, PRESERVE_BOTH))
  }

  /** A random ID is fresh, and neither it nor a producer's ID collides with a digest-derived one. */
  ghost predicate Fresh(h: Hashes, w: World, r: Ref) {
    r !in w.born && !IsCopyRef(h, r)
  }

  /** When a step can happen. */
  ghost predicate Enabled(h: Hashes, w: World, s: Step)
  {
    match s
    case Local(i, q, _, mint) =>
      i < |w.nodes| && mint != [] && Fresh(h, w, Ref(q.network, mint)) && !IsCopyRef(h, LocalRef(q, mint))
    case Observe(i, j, r) =>
      && i < |w.nodes| && j < |w.nodes|
      && r in Events(w.nodes[i].store) && r in Events(w.nodes[j].store)
      && Events(w.nodes[i].store)[r] != Events(w.nodes[j].store)[r]
    case Resolve(i, r, _, mint) =>
      && i < |w.nodes| && mint != [] && Fresh(h, w, Ref(r.network, mint))
      && r in Events(w.nodes[i].store)
      && exists o :: o in w.nodes[i].store.observed && Ref(o.network, o.id) == r
    case Receive(i, j, r, _) =>
      i < |w.nodes| && j < |w.nodes| && r in Events(w.nodes[j].store)
    case Copy(i, x, _) =>
      && i < |w.nodes| && x in Events(w.nodes[i].store)
      && Parse(Events(w.nodes[i].store)[x]).Resolves?
      && TargetOf(Events(w.nodes[i].store)[x]) in Events(w.nodes[i].store)
    case Restart(i) => i < |w.nodes|
  }

  /** The transaction a step runs; a rejected one leaves the node as it was. */
  ghost function Run(h: Hashes, w: World, s: Step): Commit
    requires Enabled(h, w, s) && (s.Local? || s.Resolve? || s.Receive? || s.Copy?)
  {
    match s
    case Local(i, q, wall, mint) => IngestPublic(w.nodes[i], q, wall, mint)
    case Resolve(i, r, wall, mint) => IngestInternal(w.nodes[i], ResolutionRequest(r), wall, mint)
    case Receive(i, j, r, wall) => ApplyReplicated(w.nodes[i], Events(w.nodes[j].store)[r], wall)
    case Copy(i, x, wall) =>
      var m := Events(w.nodes[i].store);
      ApplyReplicated(w.nodes[i], Recover(h, m[TargetOf(m[x])]), wall)
  }

  /** What the world becomes once a node has stored an event. */
  function After(w: World, i: nat, c: Commit): World
    requires i < |w.nodes| && c.Committed?
  {
    var r := RefOf(c.event);
    World(w.nodes[i := c.node], w.held + {c.event}, if r in w.born then w.born else w.born[r := |w.born|])
  }

  ghost function Next(h: Hashes, w: World, s: Step): World
    requires Enabled(h, w, s)
  {
    match s
    case Observe(i, j, r) =>
      var o := Observation(r.network, r.id, h.digest(Events(w.nodes[j].store)[r]));
      w.(nodes := w.nodes[i := w.nodes[i].(store := w.nodes[i].store.(observed := w.nodes[i].store.observed + {o}))])
    case Restart(i) =>
      w.(nodes := w.nodes[i := w.nodes[i].(hlc := w.nodes[i].store.clock)])
    case _ =>
      var c := Run(h, w, s);
      if c.Committed? then After(w, s.i, c) else w
  }

  /****** The invariant of all runs ******/

  ghost predicate NodesValid(w: World) {
    && (forall k :: 0 <= k < |w.nodes| ==> ValidNode(w.nodes[k]))
    && (forall k, l :: 0 <= k < |w.nodes| && 0 <= l < |w.nodes| && k != l ==> w.nodes[k].device != w.nodes[l].device)
  }

  ghost predicate NodesHold(w: World)
    requires NodesValid(w)
  {
    forall k {:trigger Holds(Events(w.nodes[k].store), w.held)} :: 0 <= k < |w.nodes| ==>
      Holds(Events(w.nodes[k].store), w.held)
  }

  /** A resolution names something that was in use before its own ID was. */
  ghost predicate Older(born: map<Ref, nat>, x: Event) {
    && RefOf(x) in born
    && (Parse(x).Resolves? ==> TargetOf(x) in born && born[TargetOf(x)] < born[RefOf(x)])
  }

  ghost predicate Sound(h: Hashes, w: World, e: Event) {
    Normalized(e) && !Parse(e).Malformed? && Genuine(h, e) && Older(w.born, e)
  }

  ghost predicate HeldSound(h: Hashes, w: World) {
    && (forall e {:trigger Sound(h, w, e)} :: e in w.held ==> Sound(h, w, e))
    && (forall r :: r in w.born ==> w.born[r] < |w.born|)
  }

  ghost predicate Named(w: World, r: Ref) {
    exists e :: e in w.held && RefOf(e) == r
  }

  /** Every reference in use was brought in by some envelope. */
  ghost predicate BornNamed(w: World) {
    forall r {:trigger Named(w, r)} :: r in w.born ==> Named(w, r)
  }

  /** Two envelopes that differ at most in their ID: one origin event and its recovered copies. */
  predicate SameOrigin(e: Event, f: Event) {
    e.(id := f.id) == f
  }

  /** A device stamps each of its events once, never beyond its own clock. */
  ghost predicate Stamped(w: World) {
    && (forall e, f :: e in w.held && f in w.held && e.device == f.device && Stamp(e) == Stamp(f) ==> SameOrigin(e, f))
    && (forall e, k :: e in w.held && 0 <= k < |w.nodes| && e.device == w.nodes[k].device ==>
      AtMost(Stamp(e), w.nodes[k].hlc))
  }

  ghost predicate Inv(h: Hashes, w: World) {
    && CollisionFree(h)
    && NodesValid(w) && NodesHold(w) && HeldSound(h, w) && BornNamed(w) && Stamped(w)
  }

  ghost predicate Initial(w: World) {
    && (forall k :: 0 <= k < |w.nodes| ==>
          w.nodes[k].store == EMPTY && w.nodes[k].hlc == EMPTY.clock && w.nodes[k].device != [])
    && (forall k, l :: 0 <= k < |w.nodes| && 0 <= l < |w.nodes| && k != l ==> w.nodes[k].device != w.nodes[l].device)
    && w.held == {} && w.born == map[]
  }

  lemma InitialInv(h: Hashes, w: World)
    requires CollisionFree(h) && Initial(w)
    ensures Inv(h, w)
  {
  }

  /** An envelope that may enter node i's store: sound, and either already held somewhere or newly
      stamped by that node. */
  ghost predicate Entering(h: Hashes, w: World, i: nat, c: Commit)
    requires NodesValid(w) && i < |w.nodes|
  {
    && c.Committed? && Effect(w.nodes[i], c) && Sound(h, After(w, i, c), c.event)
    && AtMost(w.nodes[i].hlc, c.node.hlc)
    && (Known(w, c.event) || (c.event.device == w.nodes[i].device
      && Before(w.nodes[i].hlc, Stamp(c.event)) && AtMost(Stamp(c.event), c.node.hlc)))
  }

  /** An envelope held already, or a copy of one. */
  ghost predicate Known(w: World, e: Event) {
    exists f :: f in w.held && SameOrigin(f, e)
  }

  lemma EnteringKeepsInv(h: Hashes, w: World, i: nat, c: Commit)
    requires Inv(h, w) && i < |w.nodes| && Entering(h, w, i, c)
    ensures Inv(h, After(w, i, c))
  {
    EnteringKeepsNodes(h, w, i, c);
    EnteringKeepsHeld(h, w, i, c);
    EnteringKeepsStamped(h, w, i, c);
  }

  lemma EnteringKeepsNodes(h: Hashes, w: World, i: nat, c: Commit)
    requires NodesValid(w) && NodesHold(w) && i < |w.nodes| && Entering(h, w, i, c)
    ensures NodesValid(After(w, i, c)) && NodesHold(After(w, i, c))
  {
    hide PrimaryKeyed, IdsIndexed, ArrivalsIndexed, ClockCovers, Extends, Sound;
    var w' := After(w, i, c);
    forall k | 0 <= k < |w'.nodes| ensures Holds(Events(w'.nodes[k].store), w'.held) {
      assert Holds(Events(w.nodes[k].store), w.held);
    }
  }

  lemma EnteringKeepsHeld(h: Hashes, w: World, i: nat, c: Commit)
    requires NodesValid(w) && HeldSound(h, w) && BornNamed(w) && i < |w.nodes| && Entering(h, w, i, c)
    ensures HeldSound(h, After(w, i, c)) && BornNamed(After(w, i, c))
  {
    hide PrimaryKeyed, IdsIndexed, ArrivalsIndexed, ClockCovers, Extends, Genuine, Effect;
    var w' := After(w, i, c);
    forall e | e in w'.held ensures Sound(h, w', e) {
      if e in w.held {
        assert Sound(h, w, e);
      }
    }
    forall r | r in w'.born ensures Named(w', r) {
      if r in w.born {
        assert Named(w, r);
        var e :| e in w.held && RefOf(e) == r;
        assert e in w'.held;
      } else {
        assert c.event in w'.held;
      }
    }
  }

  lemma EnteringKeepsStamped(h: Hashes, w: World, i: nat, c: Commit)
    requires NodesValid(w) && Stamped(w) && i < |w.nodes| && Entering(h, w, i, c)
    ensures Stamped(After(w, i, c))
  {
    hide ValidNode, Extends, Sound, Events;
    var w' := After(w, i, c);
    var e := c.event;
    if Known(w, e) {
      var origin :| origin in w.held && SameOrigin(origin, e);
      forall f | f in w.held && f.device == e.device && Stamp(f) == Stamp(e)
        ensures SameOrigin(f, e) && SameOrigin(e, f)
      {
        assert SameOrigin(f, origin);
      }
      forall k | 0 <= k < |w'.nodes| && e.device == w'.nodes[k].device ensures AtMost(Stamp(e), w'.nodes[k].hlc) {
        assert AtMost(Stamp(origin), w.nodes[k].hlc);
      }
    } else {
      forall f | f in w.held && f.device == e.device ensures Stamp(f) != Stamp(e) {
        assert AtMost(Stamp(f), w.nodes[i].hlc);
      }
      forall k | 0 <= k < |w'.nodes| && e.device == w'.nodes[k].device ensures k == i {
        assert w'.nodes[k].device == w.nodes[k].device;
      }
    }
    forall f, k | f in w.held && 0 <= k < |w'.nodes| && f.device == w'.nodes[k].device
      ensures AtMost(Stamp(f), w'.nodes[k].hlc)
    {
      assert AtMost(Stamp(f), w.nodes[k].hlc);
    }
  }

  lemma HeldFacts(h: Hashes, w: World, i: nat, r: Ref)
    requires NodesValid(w) && NodesHold(w) && HeldSound(h, w) && i < |w.nodes| && r in Events(w.nodes[i].store)
    ensures var e := Events(w.nodes[i].store)[r];
      e in w.held && RefOf(e) == r && Sound(h, w, e) && r in w.born && Normalized(e)
  {
    hide PrimaryKeyed, IdsIndexed, ArrivalsIndexed, ClockCovers, Genuine;
    assert Holds(Events(w.nodes[i].store), w.held);
    assert Sound(h, w, Events(w.nodes[i].store)[r]);
  }

  /** A transaction that only found its event changes nothing in the world. */
  lemma FoundChangesNothing(h: Hashes, w: World, i: nat, c: Commit)
    requires NodesValid(w) && NodesHold(w) && HeldSound(h, w) && i < |w.nodes|
    requires c.Committed? && Effect(w.nodes[i], c) && !c.created
    ensures After(w, i, c) == w
  {
    HeldFacts(h, w, i, RefOf(c.event));
    assert Events(w.nodes[i].store)[RefOf(c.event)] == c.event;
  }

  lemma LocalEnters(h: Hashes, w: World, s: Step)
    requires Inv(h, w) && s.Local? && Enabled(h, w, s) && Run(h, w, s).Committed? && Run(h, w, s).created
    ensures Entering(h, w, s.i, Run(h, w, s))
  {
    hide PrimaryKeyed, IdsIndexed, ArrivalsIndexed, ClockCovers, Extends, CollisionFree;
    var c := Run(h, w, s);
    IngestInternalEffect(w.nodes[s.i], s.q, s.wall, s.mint);
    FindIsEvents(c.node.store, RefOf(c.event));
  }

  lemma ResolveEnters(h: Hashes, w: World, s: Step)
    requires Inv(h, w) && s.Resolve? && Enabled(h, w, s) && Run(h, w, s).Committed?
    ensures Entering(h, w, s.i, Run(h, w, s)) && Run(h, w, s).created
    ensures Parse(Run(h, w, s).event).Resolves? && TargetOf(Run(h, w, s).event) == s.r
    ensures RefOf(Run(h, w, s).event) == Ref(s.r.network, s.mint)
  {
    hide PrimaryKeyed, IdsIndexed, ArrivalsIndexed, ClockCovers, Extends, CollisionFree;
    var c := Run(h, w, s);
    HeldFacts(h, w, s.i, s.r);
    IngestInternalEffect(w.nodes[s.i], ResolutionRequest(s.r), s.wall, s.mint);
    FindIsEvents(c.node.store, RefOf(c.event));
    if !c.created {
      HeldFacts(h, w, s.i, RefOf(c.event));
    }
    assert Parse(c.event) == Resolves(s.r.id);
  }

  lemma ReceiveEnters(h: Hashes, w: World, s: Step)
    requires Inv(h, w) && s.Receive? && Enabled(h, w, s) && Run(h, w, s).Committed?
    ensures Entering(h, w, s.i, Run(h, w, s)) && Run(h, w, s).event in w.held
  {
    hide PrimaryKeyed, IdsIndexed, ArrivalsIndexed, ClockCovers, Extends, CollisionFree, Genuine;
    HeldFacts(h, w, s.j, s.r);
    var e := Events(w.nodes[s.j].store)[s.r];
    ApplyReplicatedEffect(w.nodes[s.i], e, s.wall);
    assert SameOrigin(e, e) && Known(w, e);
  }

  /** A copy of a held envelope is sound, and was in use before only as this very copy. */
  lemma CopyIsSound(h: Hashes, w: World, y: Event)
    requires CollisionFree(h) && HeldSound(h, w) && BornNamed(w) && y in w.held
    ensures var copy := Recover(h, y);
      var born := if RefOf(copy) in w.born then w.born else w.born[RefOf(copy) := |w.born|];
      Normalized(copy) && !Parse(copy).Malformed? && Genuine(h, copy) && Older(born, copy)
  {
    var copy := Recover(h, y);
    assert Sound(h, w, y);
    forall f: Event | RefOf(Recover(h, f)) == RefOf(copy) ensures copy == Recover(h, f) {
      RecoverInjective(h, f, y);
    }
    if RefOf(copy) in w.born {
      assert Named(w, RefOf(copy));
      var e :| e in w.held && RefOf(e) == RefOf(copy);
      assert Sound(h, w, e);
      assert e == copy;
    }
  }

  lemma CopyEnters(h: Hashes, w: World, s: Step)
    requires Inv(h, w) && s.Copy? && Enabled(h, w, s) && Run(h, w, s).Committed?
    ensures Entering(h, w, s.i, Run(h, w, s))
  {
    hide PrimaryKeyed, IdsIndexed, ArrivalsIndexed, ClockCovers, Extends, CollisionFree, Genuine, Older;
    var m := Events(w.nodes[s.i].store);
    var y := m[TargetOf(m[s.x])];
    HeldFacts(h, w, s.i, TargetOf(m[s.x]));
    CopyIsSound(h, w, y);
    ApplyReplicatedEffect(w.nodes[s.i], Recover(h, y), s.wall);
    assert SameOrigin(y, Recover(h, y)) && Known(w, Recover(h, y));
  }

  /** What a node has observed plays no part in the invariant. */
  lemma ObserveKeepsInv(h: Hashes, w: World, s: Step)
    requires Inv(h, w) && s.Observe? && Enabled(h, w, s)
    ensures Inv(h, Next(h, w, s))
  {
    hide PrimaryKeyed, IdsIndexed, ArrivalsIndexed, ClockCovers, CollisionFree, Sound, Named;
    var w' := Next(h, w, s);
    SideTablesKeepValid(w.nodes[s.i].store, w.nodes[s.i].store.siphons, w'.nodes[s.i].store.observed);
    ObserveKeepsHeld(h, w, w');
    forall k | 0 <= k < |w'.nodes| ensures Holds(Events(w'.nodes[k].store), w'.held) {
      assert Holds(Events(w.nodes[k].store), w.held);
      assert Events(w'.nodes[k].store) == Events(w.nodes[k].store);
    }
  }

  lemma ObserveKeepsHeld(h: Hashes, w: World, w': World)
    requires HeldSound(h, w) && BornNamed(w) && w'.held == w.held && w'.born == w.born
    ensures HeldSound(h, w') && BornNamed(w')
  {
    forall e | e in w'.held ensures Sound(h, w', e) {
      SoundDependsOnBorn(h, w, w', e);
    }
    forall r | r in w'.born ensures Named(w', r) {
      assert Named(w, r);
    }
  }

  lemma SoundDependsOnBorn(h: Hashes, w: World, w': World, e: Event)
    requires HeldSound(h, w) && e in w.held && w'.born == w.born
    ensures Sound(h, w', e)
  {
    assert Sound(h, w, e);
  }

  lemma LocalKeepsInv(h: Hashes, w: World, s: Step)
    requires Inv(h, w) && s.Local? && Enabled(h, w, s)
    ensures Inv(h, Next(h, w, s))
  {
    hide PrimaryKeyed, IdsIndexed, ArrivalsIndexed, ClockCovers, Extends, CollisionFree, Entering, Sound, HeldSound,
        Stamped, BornNamed;
    var c := Run(h, w, s);
    if c.Committed? {
      IngestInternalEffect(w.nodes[s.i], s.q, s.wall, s.mint);
      if c.created {
        LocalEnters(h, w, s);
        EnteringKeepsInv(h, w, s.i, c);
      } else {
        FoundChangesNothing(h, w, s.i, c);
      }
    }
  }

  lemma EventStepKeepsInv(h: Hashes, w: World, s: Step)
    requires Inv(h, w) && (s.Resolve? || s.Receive? || s.Copy?) && Enabled(h, w, s)
    ensures Inv(h, Next(h, w, s))
  {
    hide PrimaryKeyed, IdsIndexed, ArrivalsIndexed, ClockCovers, Extends, CollisionFree, Entering, Sound, HeldSound,
        Stamped, BornNamed;
    var c := Run(h, w, s);
    if c.Committed? {
      if s.Resolve? {
        ResolveEnters(h, w, s);
      } else if s.Receive? {
        ReceiveEnters(h, w, s);
      } else {
        CopyEnters(h, w, s);
      }
      EnteringKeepsInv(h, w, s.i, c);
    }
  }

  /** Every step of every run keeps the invariant. */
  lemma StepKeepsInv(h: Hashes, w: World, s: Step)
    requires Inv(h, w) && Enabled(h, w, s)
    ensures Inv(h, Next(h, w, s))
  {
    hide PrimaryKeyed, IdsIndexed, ArrivalsIndexed, ClockCovers, Extends, CollisionFree, Entering, Sound, HeldSound,
        Stamped, BornNamed, NodesHold;
    if s.Local? {
      LocalKeepsInv(h, w, s);
    } else if s.Observe? {
      ObserveKeepsInv(h, w, s);
    } else if s.Restart? {
      assert Next(h, w, s) == w;
    } else {
      EventStepKeepsInv(h, w, s);
    }
  }

  /****** Runs ******/

  ghost predicate Reaches(h: Hashes, w: World, w': World, steps: nat)
    decreases steps
  {
    if steps == 0 then w == w'
    else exists s :: Enabled(h, w, s) && Reaches(h, Next(h, w, s), w', steps - 1)
  }

  lemma {:induction false} RunsKeepInv(h: Hashes, w: World, w': World, steps: nat)
    requires Inv(h, w) && Reaches(h, w, w', steps)
    ensures Inv(h, w')
    decreases steps
  {
    hide Inv, Enabled;
    if steps > 0 {
      var s :| Enabled(h, w, s) && Reaches(h, Next(h, w, s), w', steps - 1);
      StepKeepsInv(h, w, s);
      RunsKeepInv(h, Next(h, w, s), w', steps - 1);
    }
  }

  lemma {:induction false} ReachesJoin(h: Hashes, w: World, v: World, u: World, k: nat, l: nat)
    requires Reaches(h, w, v, k) && Reaches(h, v, u, l)
    ensures Reaches(h, w, u, k + l)
    decreases k
  {
    hide Enabled, Next;
    if k > 0 {
      var s :| Enabled(h, w, s) && Reaches(h, Next(h, w, s), v, k - 1);
      ReachesJoin(h, Next(h, w, s), v, u, k - 1, l);
      assert Enabled(h, w, s) && Reaches(h, Next(h, w, s), u, k + l - 1);
    }
  }

  lemma OneStep(h: Hashes, w: World, s: Step)
    requires Enabled(h, w, s)
    ensures Reaches(h, w, Next(h, w, s), 1)
  {
    assert Reaches(h, Next(h, w, s), Next(h, w, s), 0);
  }

  /** A run with all its worlds and steps. */
  ghost predicate Trace(h: Hashes, ws: seq<World>, ss: seq<Step>) {
    |ws| == |ss| + 1 && forall k {:trigger TraceStep(h, ws, ss, k)} :: 0 <= k < |ss| ==> TraceStep(h, ws, ss, k)
  }

  ghost predicate TraceStep(h: Hashes, ws: seq<World>, ss: seq<Step>, k: nat)
    requires |ws| == |ss| + 1 && k < |ss|
  {
    Enabled(h, ws[k], ss[k]) && ws[k + 1] == Next(h, ws[k], ss[k])
  }

  lemma {:induction false} TraceKeepsInv(h: Hashes, ws: seq<World>, ss: seq<Step>, k: nat)
    requires Trace(h, ws, ss) && Inv(h, ws[0]) && k <= |ss|
    ensures Inv(h, ws[k]) && |ws[k].nodes| == |ws[0].nodes|
    decreases k
  {
    hide Inv, Enabled, Next;
    if k > 0 {
      TraceKeepsInv(h, ws, ss, k - 1);
      assert TraceStep(h, ws, ss, k - 1);
      StepKeepsInv(h, ws[k - 1], ss[k - 1]);
      StepKeepsNodes(h, ws[k - 1], ss[k - 1]);
    }
  }

  lemma StepKeepsNodes(h: Hashes, w: World, s: Step)
    requires Enabled(h, w, s)
    ensures |Next(h, w, s).nodes| == |w.nodes|
  {
    hide IngestPublic, IngestInternal, ApplyReplicated, Events, Fresh;
  }

  /****** What holds in every reachable world ******/

  /** Any two nodes that hold a recovered ID hold the same envelope under it: the variant it was
      derived from. */
  lemma NodesAgreeOnCopies(h: Hashes, w: World, i: nat, j: nat, y: Event)
    requires Inv(h, w) && i < |w.nodes| && j < |w.nodes|
    requires RefOf(Recover(h, y)) in Events(w.nodes[i].store) && RefOf(Recover(h, y)) in Events(w.nodes[j].store)
    ensures Events(w.nodes[i].store)[RefOf(Recover(h, y))]
      == Recover(h, y) == Events(w.nodes[j].store)[RefOf(Recover(h, y))]
  {
    HeldFacts(h, w, i, RefOf(Recover(h, y)));
    HeldFacts(h, w, j, RefOf(Recover(h, y)));
  }

  lemma NodesAreFaithful(h: Hashes, w: World, i: nat)
    requires Inv(h, w) && i < |w.nodes|
    ensures ValidNode(w.nodes[i]) && Faithful(h, Events(w.nodes[i].store))
    ensures Termination.WellParsed(Events(w.nodes[i].store))
  {
    hide PrimaryKeyed, IdsIndexed, ArrivalsIndexed, ClockCovers, CollisionFree;
    var m := Events(w.nodes[i].store);
    forall y: Event | RefOf(Recover(h, y)) in m ensures m[RefOf(Recover(h, y))] == Recover(h, y) {
      NodesAgreeOnCopies(h, w, i, i, y);
    }
    forall r | r in m ensures RefOf(m[r]) == r && Normalized(m[r]) && !Parse(m[r]).Malformed? {
      HeldFacts(h, w, i, r);
    }
  }

  /** Targets were in use before the resolutions that name them, so every chain ends. */
  lemma {:induction false} ChainEndsByBirth(h: Hashes, w: World, i: nat, r: Ref, made: set<Ref>, k: nat)
    requires Inv(h, w) && i < |w.nodes|
    requires r in w.born ==> w.born[r] <= k
    requires forall x :: x in made && x in w.born ==> r in w.born && w.born[r] < w.born[x]
    requires made != {} ==> r in w.born
    ensures Termination.ChainEnds(h, Events(w.nodes[i].store), r, made, k)
    decreases k
  {
    hide PrimaryKeyed, IdsIndexed, ArrivalsIndexed, ClockCovers, Genuine, NodesHold, Stamped;
    var m := Events(w.nodes[i].store);
    if r in m && Parse(m[r]).Resolves? {
      HeldFacts(h, w, i, r);
      CopyIsSound(h, w, m[r]);
      var copy := Recover(h, m[r]);
      assert Parse(copy).Resolves? && TargetOf(copy) == TargetOf(m[r]);
      ChainEndsByBirth(h, w, i, TargetOf(m[r]), made + {RefOf(copy)}, k - 1);
    }
  }

  /** In every reachable world the mutual recursion of a resolution and its copies ends, on every
      node and from every reference. */
  lemma RecursionAlwaysEnds(h: Hashes, w: World, i: nat, r: Ref, walls: nat -> Instant)
    requires Inv(h, w) && i < |w.nodes|
    ensures exists fuel: nat :: !Materialize(h, w.nodes[i], r, walls, 0, fuel).Diverged?
  {
    NodesAreFaithful(h, w, i);
    ChainEndsByBirth(h, w, i, r, {}, if r in w.born then w.born[r] else 0);
    hide Inv, ValidNode, CollisionFree, Faithful, Termination.WellParsed, Termination.ChainEnds;
    assert CollisionFree(h) by { InvCollisionFree(h, w); }
    Termination.RecursionEndsIffChainEnds(h, w.nodes[i], r, walls);
  }

  lemma InvCollisionFree(h: Hashes, w: World)
    requires Inv(h, w)
    ensures CollisionFree(h)
  {
  }

  /****** The daemon's operations are runs ******/

  ghost predicate RunTo(h: Hashes, w: World, nodes: seq<Node>) {
    exists w', k :: Reaches(h, w, w', k) && w'.nodes == nodes
  }

  lemma NothingIsARun(h: Hashes, w: World)
    ensures RunTo(h, w, w.nodes)
  {
    assert Reaches(h, w, w, 0);
  }

  lemma RunThenRun(h: Hashes, w: World, s: Step, nodes: seq<Node>)
    requires Enabled(h, w, s) && RunTo(h, Next(h, w, s), nodes)
    ensures RunTo(h, w, nodes)
  {
    hide Enabled, Next;
    var w', k :| Reaches(h, Next(h, w, s), w', k) && w'.nodes == nodes;
    OneStep(h, w, s);
    ReachesJoin(h, w, Next(h, w, s), w', 1, k);
  }

  /** Materializing what a stored resolution supersedes is a run, whether it succeeds or fails part
      of the way. */
  lemma {:induction false} MaterializeIsRun(h: Hashes, w: World, i: nat, x: Ref, walls: nat -> Instant, at: nat,
      fuel: nat)
    requires Inv(h, w) && i < |w.nodes| && x in Events(w.nodes[i].store) && Parse(Events(w.nodes[i].store)[x]).Resolves?
    requires !Materialize(h, w.nodes[i], TargetOf(Events(w.nodes[i].store)[x]), walls, at, fuel).Diverged?
    ensures RunTo(h, w,
      w.nodes[i := Materialize(h, w.nodes[i], TargetOf(Events(w.nodes[i].store)[x]), walls, at, fuel).node])
    decreases fuel
  {
    hide PrimaryKeyed, IdsIndexed, ArrivalsIndexed, ClockCovers, Extends, Genuine, CollisionFree, RunTo, NodesHold,
        HeldSound, BornNamed, Stamped;
    var n := w.nodes[i];
    var m := Events(n.store);
    var r := TargetOf(m[x]);
    FindIsEvents(n.store, r);
    if r !in m {
      assert w.nodes[i := n] == w.nodes;
      NothingIsARun(h, w);
    } else {
      var copy := Recover(h, m[r]);
      var c := ApplyReplicated(n, copy, walls(at));
      CopyReceived(h, w, i, x, walls(at));
      if c.Rejected? {
        assert w.nodes[i := n] == w.nodes;
        NothingIsARun(h, w);
      } else {
        var s := Copy(i, x, walls(at));
        var next := Next(h, w, s);
        StepKeepsInv(h, w, s);
        if Parse(copy).Resolves? {
          MaterializeIsRun(h, next, i, RefOf(copy), walls, at + 1, fuel - 1);
          assert w.nodes[i := c.node][i := Materialize(h, c.node, TargetOf(copy), walls, at + 1, fuel - 1).node]
              == w.nodes[i := Materialize(h, c.node, TargetOf(copy), walls, at + 1, fuel - 1).node];
        } else {
          NothingIsARun(h, next);
        }
        RunThenRun(h, w, s, w.nodes[i := Materialize(h, n, r, walls, at, fuel).node]);
      }
    }
  }

  lemma CopyReceived(h: Hashes, w: World, i: nat, x: Ref, wall: Instant)
    requires Inv(h, w) && Enabled(h, w, Copy(i, x, wall))
    ensures var m := Events(w.nodes[i].store);
      var copy := Recover(h, m[TargetOf(m[x])]);
      var c := ApplyReplicated(w.nodes[i], copy, wall);
      && Normalized(copy) && !Parse(copy).Malformed?
      && c == Run(h, w, Copy(i, x, wall))
      && (c.Committed? ==>
            && c.event == copy && RefOf(copy) in Events(c.node.store) && Events(c.node.store)[RefOf(copy)] == copy
            && Next(h, w, Copy(i, x, wall)).nodes == w.nodes[i := c.node])
  {
    hide PrimaryKeyed, IdsIndexed, ArrivalsIndexed, ClockCovers, Extends, Genuine, CollisionFree;
    var m := Events(w.nodes[i].store);
    HeldFacts(h, w, i, TargetOf(m[x]));
    CopyIsSound(h, w, m[TargetOf(m[x])]);
    ApplyReplicatedEffect(w.nodes[i], Recover(h, m[TargetOf(m[x])]), wall);
  }

  /** Receiving an event that another node holds is a run of receive and copy steps, so the
      invariant of all runs holds after it, after every transaction inside it, and after a failure
      between any two of them. */
  lemma IngestReplicatedIsRun(h: Hashes, w: World, i: nat, j: nat, r: Ref, walls: nat -> Instant, fuel: nat)
    requires Inv(h, w) && i < |w.nodes| && j < |w.nodes| && r in Events(w.nodes[j].store)
    requires !IngestReplicated(h, w.nodes[i], Events(w.nodes[j].store)[r], walls, 0, fuel).Diverged?
    ensures RunTo(h, w, w.nodes[i := IngestReplicated(h, w.nodes[i], Events(w.nodes[j].store)[r], walls, 0, fuel).node])
  {
    hide PrimaryKeyed, IdsIndexed, ArrivalsIndexed, ClockCovers, Extends, Genuine, CollisionFree, RunTo, NodesHold,
        HeldSound, BornNamed, Stamped;
    var n := w.nodes[i];
    var e := Events(w.nodes[j].store)[r];
    EventReceived(h, w, i, j, r, walls(0));
    var c := ApplyReplicated(n, e, walls(0));
    if c.Rejected? {
      assert w.nodes[i := n] == w.nodes;
      NothingIsARun(h, w);
    } else {
      var s := Receive(i, j, r, walls(0));
      var next := Next(h, w, s);
      StepKeepsInv(h, w, s);
      if Parse(e).Resolves? {
        MaterializeIsRun(h, next, i, RefOf(e), walls, 1, fuel);
        assert w.nodes[i := c.node][i := Materialize(h, c.node, TargetOf(e), walls, 1, fuel).node]
            == w.nodes[i := Materialize(h, c.node, TargetOf(e), walls, 1, fuel).node];
      } else {
        NothingIsARun(h, next);
      }
      RunThenRun(h, w, s, w.nodes[i := IngestReplicated(h, n, e, walls, 0, fuel).node]);
    }
  }

  lemma EventReceived(h: Hashes, w: World, i: nat, j: nat, r: Ref, wall: Instant)
    requires Inv(h, w) && Enabled(h, w, Receive(i, j, r, wall))
    ensures var e := Events(w.nodes[j].store)[r];
      var c := ApplyReplicated(w.nodes[i], e, wall);
      && Normalized(e) && !Parse(e).Malformed?
      && c == Run(h, w, Receive(i, j, r, wall))
      && (c.Committed? ==>
            && c.event == e && RefOf(e) in Events(c.node.store) && Events(c.node.store)[RefOf(e)] == e
            && Next(h, w, Receive(i, j, r, wall)).nodes == w.nodes[i := c.node])
  {
    hide PrimaryKeyed, IdsIndexed, ArrivalsIndexed, ClockCovers, Extends, Genuine, CollisionFree;
    HeldFacts(h, w, j, r);
    ApplyReplicatedEffect(w.nodes[i], Events(w.nodes[j].store)[r], wall);
  }
}
