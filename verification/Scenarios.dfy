/** Concrete runs that reach the situations in which a promise of the documentation fails. */
module Scenarios {
  import opened Bytes
  import opened Hlc
  import opened Store
  import opened Ingest
  import opened Replication
  import opened Replica
  import opened Session
  import opened World
  import opened CalmWorld
  import opened PreserveBoth
  import opened LateVariants
  import Instances

  /****** Steps that succeed ******/

  /** Every clock is before t, and every node has room for more events. */
  ghost predicate Quiet(w: World, t: nat, n: nat) {
    forall k {:trigger w.nodes[k]} :: 0 <= k < |w.nodes| ==>
      w.nodes[k].hlc.physical < t && w.nodes[k].store.sequence <= n
  }

  /** Hashes whose recovered IDs begin with a zero byte. */
  ghost predicate Roomy(h: Hashes) {
    CollisionFree(h) && forall r: Ref :: r.id != [] && r.id[0] != 0 ==> !IsCopyRef(h, r)
  }

  lemma RoomyHashesExist() returns (h: Hashes)
    ensures Roomy(h)
  {
    h := Instances.HypothesesCanBeMet({});
  }

  /** Step s led from w to w' and stored e, which was new to its node. */
  ghost predicate Stored(h: Hashes, w: World, s: Step, e: Event, w': World)
    requires s.Local? || s.Resolve? || s.Receive? || s.Copy?
  {
    && Enabled(h, w, s) && s.i < |w.nodes| && w' == Next(h, w, s) && Inv(h, w')
    && Run(h, w, s).Committed? && Run(h, w, s).event == e && StoresAt(h, w, s, s.i)
    && |w'.nodes| == |w.nodes|
    && (forall k {:trigger HeldAt(w', k)} :: 0 <= k < |w.nodes| ==>
          HeldAt(w', k) == if k == s.i then HeldAt(w, k)[RefOf(e) := e] else HeldAt(w, k))
    && (forall k {:trigger w'.nodes[k]} :: 0 <= k < |w.nodes| ==>
          w'.nodes[k].store.observed == w.nodes[k].store.observed && w'.nodes[k].device == w.nodes[k].device)
    && w'.held == w.held + {e} && w'.born.Keys == w.born.Keys + {RefOf(e)}
  }

  /** What a transaction needs for its commit. */
  lemma CommitsNew(h: Hashes, w: World, s: Step, c: Commit, t: Instant, n: nat)
    requires Inv(h, w) && (s.Local? || s.Resolve? || s.Receive? || s.Copy?) && Enabled(h, w, s)
    requires s.i < |w.nodes| && c == Run(h, w, s) && c.Committed? && c.created && Effect(w.nodes[s.i], c)
    requires c.node.hlc.physical == t && Quiet(w, t, n)
    ensures Stored(h, w, s, c.event, Next(h, w, s)) && Quiet(Next(h, w, s), t + 1, n + 1)
  {
    hide Inv, Enabled, Run, ValidNode, Extends, Events;
    StepKeepsInv(h, w, s);
    NextStores(h, w, s, c);
  }

  lemma NextStores(h: Hashes, w: World, s: Step, c: Commit)
    requires (s.Local? || s.Resolve? || s.Receive? || s.Copy?) && Enabled(h, w, s)
    requires s.i < |w.nodes| && c == Run(h, w, s) && c.Committed?
    ensures Next(h, w, s) == After(w, s.i, c)
  {
    hide Enabled, Run;
  }

  lemma StampBehind(h: Hashes, w: World, i: nat, r: Ref)
    requires Inv(h, w) && i < |w.nodes| && r in HeldAt(w, i)
    ensures HeldAt(w, i)[r].insertedAt <= w.nodes[i].hlc.physical
    ensures RefOf(HeldAt(w, i)[r]) == r && Normalized(HeldAt(w, i)[r])
  {
    FindIsEvents(w.nodes[i].store, r);
  }

  /** A producer's new event. */
  lemma StoreLocal(h: Hashes, w: World, s: Step, n: nat) returns (e: Event, w': World)
    requires Inv(h, w) && s.Local? && Enabled(h, w, s) && s.i < |w.nodes|
    requires s.q.network != [] && s.q.stream != [] && s.q.stream != RESOLUTION_STREAM
    requires LocalRef(s.q, s.mint) !in HeldAt(w, s.i) && Quiet(w, s.wall, n) && n < MAX_UINT64
    ensures Stored(h, w, s, e, w') && Quiet(w', s.wall + 1, n + 1)
    ensures RefOf(e) == LocalRef(s.q, s.mint) && Parse(e).Plain? && e.payload == s.q.payload
  {
    hide PrimaryKeyed, IdsIndexed, ArrivalsIndexed, ClockCovers, Extends, CollisionFree, Stored;
    var node := w.nodes[s.i];
    assert ValidNode(node);
    IngestInternalRejects(node, s.q, s.wall, s.mint);
    IngestInternalEffect(node, s.q, s.wall, s.mint);
    var c := Run(h, w, s);
    assert c.Committed?;
    e, w' := c.event, Next(h, w, s);
    CommitsNew(h, w, s, c, s.wall, n);
  }

  /** The resolution event of an observed conflict. */
  lemma StoreResolution(h: Hashes, w: World, s: Step, n: nat) returns (e: Event, w': World)
    requires Inv(h, w) && s.Resolve? && Enabled(h, w, s) && s.i < |w.nodes| && s.r.network != []
    requires Quiet(w, s.wall, n) && n < MAX_UINT64
    ensures Stored(h, w, s, e, w') && Quiet(w', s.wall + 1, n + 1)
    ensures RefOf(e) == Ref(s.r.network, s.mint) && Parse(e).Resolves? && TargetOf(e) == s.r
  {
    hide PrimaryKeyed, IdsIndexed, ArrivalsIndexed, ClockCovers, Extends, CollisionFree, Stored;
    var node := w.nodes[s.i];
    var q := ResolutionRequest(s.r);
    assert ValidNode(node);
    UnbornIsNotHeld(h, w, s.i, Ref(s.r.network, s.mint));
    IngestInternalRejects(node, q, s.wall, s.mint);
    IngestInternalEffect(node, q, s.wall, s.mint);
    var c := Run(h, w, s);
    assert c.Committed?;
    ResolveEnters(h, w, s);
    e, w' := c.event, Next(h, w, s);
    CommitsNew(h, w, s, c, s.wall, n);
  }

  lemma UnbornIsNotHeld(h: Hashes, w: World, i: nat, r: Ref)
    requires Inv(h, w) && i < |w.nodes| && r !in w.born
    ensures r !in HeldAt(w, i)
  {
    if r in HeldAt(w, i) {
      HeldFacts(h, w, i, r);
    }
  }

  /** Another node's event. */
  lemma StoreReceived(h: Hashes, w: World, s: Step, n: nat) returns (w': World)
    requires Inv(h, w) && s.Receive? && Enabled(h, w, s) && s.i < |w.nodes| && s.j < |w.nodes|
    requires s.r in HeldAt(w, s.j) && s.r !in HeldAt(w, s.i) && Quiet(w, s.wall, n) && n < MAX_UINT64
    ensures Stored(h, w, s, HeldAt(w, s.j)[s.r], w') && Quiet(w', s.wall + 1, n + 1)
  {
    hide PrimaryKeyed, IdsIndexed, ArrivalsIndexed, ClockCovers, Extends, CollisionFree, Stored;
    var node := w.nodes[s.i];
    var e := HeldAt(w, s.j)[s.r];
    assert ValidNode(node);
    StampBehind(h, w, s.j, s.r);
    ReceiveCommits(node, e, s.wall);
    w' := Next(h, w, s);
    CommitsNew(h, w, s, Run(h, w, s), s.wall, n);
  }

  lemma ReceiveCommits(node: Node, e: Event, wall: Instant)
    requires ValidNode(node) && Normalized(e) && RefOf(e) !in Events(node.store)
    requires node.hlc.physical < wall && e.insertedAt < wall && node.store.sequence < MAX_UINT64
    ensures var c := ApplyReplicated(node, e, wall);
      c.Committed? && c.created && c.event == e && c.node.hlc.physical == wall && Effect(node, c)
  {
    ApplyReplicatedRejects(node, e, wall);
    ApplyReplicatedEffect(node, e, wall);
  }

  /** The copy that a stored resolution calls for. */
  lemma StoreCopy(h: Hashes, w: World, s: Step, e: Event, n: nat) returns (w': World)
    requires Inv(h, w) && s.Copy? && Enabled(h, w, s) && s.i < |w.nodes| && s.x in HeldAt(w, s.i)
    requires var m := HeldAt(w, s.i);
      Parse(m[s.x]).Resolves? && TargetOf(m[s.x]) in m && e == Recover(h, m[TargetOf(m[s.x])])
    requires RefOf(e) !in HeldAt(w, s.i) && Quiet(w, s.wall, n) && n < MAX_UINT64
    ensures Stored(h, w, s, e, w') && Quiet(w', s.wall + 1, n + 1)
  {
    hide PrimaryKeyed, IdsIndexed, ArrivalsIndexed, ClockCovers, Extends, CollisionFree, Stored;
    var node := w.nodes[s.i];
    assert ValidNode(node);
    StampBehind(h, w, s.i, TargetOf(HeldAt(w, s.i)[s.x]));
    CopyReceived(h, w, s.i, s.x, s.wall);
    ReceiveCommits(node, e, s.wall);
    w' := Next(h, w, s);
    CommitsNew(h, w, s, Run(h, w, s), s.wall, n);
  }

  /****** Following a run of three nodes ******/

  const NETWORK: Text := [78]
  const STREAM: Text := [83]
  const NAME: Text := [84]
  const SHARED: Ref := Ref(NETWORK, NAME)

  ghost function Start(): World {
    World(
      [Node(EMPTY, EMPTY.clock, [65]), Node(EMPTY, EMPTY.clock, [66]), Node(EMPTY, EMPTY.clock, [67])],
      {},
      map[])
  }

  /** A producer's event under a given ID, with a payload of its own. */
  function Produced(id: Text, payload: byte): Request {
    Request(NETWORK, STREAM, 1, id, Json([payload]))
  }

  /** The random ID drawn in the k-th step. */
  function Mint(k: byte): Text {
    [109, k]
  }

  ghost predicate Watched(w: World, i: nat, r: Ref) {
    i < |w.nodes| && exists o :: o in w.nodes[i].store.observed && Ref(o.network, o.id) == r
  }

  ghost predicate NeverResolves(w: World, r: Ref) {
    forall e :: e in w.held && RefOf(e) == r ==> !Parse(e).Resolves?
  }

  /** After k steps the nodes hold these events; the references in `born` are in use. */
  ghost predicate At(h: Hashes, w: World, k: nat, held: seq<map<Ref, Event>>, born: set<Ref>) {
    && Inv(h, w) && Reaches(h, Start(), w, k) && Quiet(w, k + 1, k)
    && |held| == |w.nodes| == 3 && w.born.Keys == born && NeverResolves(w, SHARED)
    && forall i {:trigger HeldAt(w, i)} :: 0 <= i < 3 ==> HeldAt(w, i) == held[i]
  }

  lemma AtFacts(h: Hashes, w: World, k: nat, held: seq<map<Ref, Event>>, born: set<Ref>)
    requires At(h, w, k, held, born)
    ensures Inv(h, w) && NeverResolves(w, SHARED) && Reaches(h, Start(), w, k) && |w.nodes| == |held| == 3
    ensures Quiet(w, k + 1, k) && w.born.Keys == born
    ensures forall i {:trigger HeldAt(w, i)} :: 0 <= i < 3 ==> HeldAt(w, i) == held[i]
  {
    hide Inv, Reaches;
  }

  lemma StartsHere(h: Hashes)
    requires Roomy(h)
    ensures Initial(Start()) && CalmInv(h, Start()) && At(h, Start(), 0, [map[], map[], map[]], {})
  {
    assert Reaches(h, Start(), Start(), 0);
    InitialInv(h, Start());
    InitialCalm(h, Start());
    hide CalmInv, Inv, Reaches;
  }

  lemma FollowStored(h: Hashes, w: World, s: Step, e: Event, w': World, k: nat, held: seq<map<Ref, Event>>,
      born: set<Ref>)
    requires At(h, w, k, held, born) && (s.Local? || s.Resolve? || s.Receive? || s.Copy?)
    requires Stored(h, w, s, e, w') && Quiet(w', k + 2, k + 1) && (RefOf(e) == SHARED ==> !Parse(e).Resolves?)
    ensures s.i < 3 && At(h, w', k + 1, held[s.i := held[s.i][RefOf(e) := e]], born + {RefOf(e)})
    ensures CalmInv(h, w) && Considerate(w, s) ==> CalmInv(h, w')
    ensures forall r {:trigger Watched(w', 0, r)} :: Watched(w, 0, r) ==> Watched(w', 0, r)
  {
    hide Inv, Enabled, Run, CalmInv, Considerate, Next, Reaches, StoresAt;
    OneStep(h, w, s);
    ReachesJoin(h, Start(), w, w', k, 1);
    if CalmInv(h, w) && Considerate(w, s) {
      StepKeepsCalm(h, w, s);
    }
  }

  lemma FollowObserved(h: Hashes, w: World, s: Step, k: nat, held: seq<map<Ref, Event>>, born: set<Ref>)
    returns (w': World)
    requires At(h, w, k, held, born) && s.Observe? && s.i < 3 && s.j < 3
    requires s.r in held[s.i] && s.r in held[s.j] && held[s.i][s.r] != held[s.j][s.r]
    ensures At(h, w', k + 1, held, born) && Watched(w', s.i, s.r)
    ensures CalmInv(h, w) ==> CalmInv(h, w')
  {
    hide Inv, Enabled, CalmInv, Considerate, Next, Reaches, HeldAt;
    CanObserve(h, w, s);
    w' := Next(h, w, s);
    OneStep(h, w, s);
    StepKeepsInv(h, w, s);
    ObservedIsWatched(h, w, s);
    ReachesJoin(h, Start(), w, w', k, 1);
    assert Considerate(w, s) by { OnlyLocalIsInconsiderate(w, s); }
    if CalmInv(h, w) {
      StepKeepsCalm(h, w, s);
    }
  }

  lemma CanObserve(h: Hashes, w: World, s: Step)
    requires s.Observe? && s.i < |w.nodes| && s.j < |w.nodes|
    requires s.r in HeldAt(w, s.i) && s.r in HeldAt(w, s.j) && HeldAt(w, s.i)[s.r] != HeldAt(w, s.j)[s.r]
    ensures Enabled(h, w, s)
  {
  }

  lemma OnlyLocalIsInconsiderate(w: World, s: Step)
    ensures !s.Local? ==> Considerate(w, s)
  {
  }

  lemma ObservedIsWatched(h: Hashes, w: World, s: Step)
    requires s.Observe? && Enabled(h, w, s)
    ensures var w' := Next(h, w, s);
      && |w'.nodes| == |w.nodes| && w'.born == w.born && w'.held == w.held && Watched(w', s.i, s.r)
      && (forall i {:trigger HeldAt(w', i)} :: 0 <= i < |w.nodes| ==> HeldAt(w', i) == HeldAt(w, i))
      && (forall i {:trigger w'.nodes[i]} :: 0 <= i < |w.nodes| ==>
            w'.nodes[i].hlc == w.nodes[i].hlc && w'.nodes[i].store.sequence == w.nodes[i].store.sequence)
  {
    var w' := Next(h, w, s);
    var o := Observation(s.r.network, s.r.id, h.digest(Events(w.nodes[s.j].store)[s.r]));
    assert o in w'.nodes[s.i].store.observed;
    forall i | 0 <= i < |w.nodes| ensures HeldAt(w', i) == HeldAt(w, i) {
      assert w'.nodes[i].store.primary == w.nodes[i].store.primary && w'.nodes[i].store.ids == w.nodes[i].store.ids;
    }
  }

  /****** The steps of the two runs ******/

  lemma DoLocal(h: Hashes, w: World, k: nat, held: seq<map<Ref, Event>>, born: set<Ref>, i: nat, id: Text,
      payload: byte) returns (e: Event, w': World)
    requires Roomy(h) && At(h, w, k, held, born) && k < 100 && i < 3 && id != [] && id[0] != 0
    requires Ref(NETWORK, id) !in held[i] && Ref(NETWORK, Mint(k)) !in born
    ensures Stored(h, w, Local(i, Produced(id, payload), k + 1, Mint(k)), e, w')
    ensures At(h, w', k + 1, held[i := held[i][Ref(NETWORK, id) := e]], born + {Ref(NETWORK, id)})
    ensures RefOf(e) == Ref(NETWORK, id) && Parse(e).Plain? && e.payload == Json([payload])
    ensures CalmInv(h, w) && Considerate(w, Local(i, Produced(id, payload), k + 1, Mint(k))) ==> CalmInv(h, w')
    ensures forall r {:trigger Watched(w', 0, r)} :: Watched(w, 0, r) ==> Watched(w', 0, r)
  {
    var s := Local(i, Produced(id, payload), k + 1, Mint(k));
    hide Inv, Enabled, Run, CalmInv, Considerate, Next, Reaches, StoresAt, Roomy, Watched, At, NeverResolves, Quiet;
    AtFacts(h, w, k, held, born);
    LocalEnabled(h, w, k, held, born, i, id, payload);
    e, w' := StoreLocal(h, w, s, k);
    FollowStored(h, w, s, e, w', k, held, born);
  }

  lemma LocalEnabled(h: Hashes, w: World, k: nat, held: seq<map<Ref, Event>>, born: set<Ref>, i: nat, id: Text,
      payload: byte)
    requires Roomy(h) && At(h, w, k, held, born) && k < 100 && i < 3 && id != [] && id[0] != 0
    requires Ref(NETWORK, Mint(k)) !in born
    ensures Enabled(h, w, Local(i, Produced(id, payload), k + 1, Mint(k)))
    ensures LocalRef(Produced(id, payload), Mint(k)) == Ref(NETWORK, id) && STREAM != RESOLUTION_STREAM
  {
    hide Inv, Reaches, IsCopyRef, CollisionFree;
    assert |STREAM| != |RESOLUTION_STREAM|;
  }

  lemma DoResolve(h: Hashes, w: World, k: nat, held: seq<map<Ref, Event>>, born: set<Ref>)
    returns (x: Event, w': World)
    requires Roomy(h) && At(h, w, k, held, born) && k < 100 && SHARED in held[0] && Watched(w, 0, SHARED)
    requires Ref(NETWORK, Mint(k)) !in born
    ensures At(h, w', k + 1, held[0 := held[0][Ref(NETWORK, Mint(k)) := x]], born + {Ref(NETWORK, Mint(k))})
    ensures RefOf(x) == Ref(NETWORK, Mint(k)) && Parse(x).Resolves? && TargetOf(x) == SHARED
    ensures CalmInv(h, w) ==> CalmInv(h, w')
  {
    var s := Resolve(0, SHARED, k + 1, Mint(k));
    hide Inv, Enabled, Run, CalmInv, Considerate, Next, Reaches, StoresAt, Roomy, Watched, At, NeverResolves, Quiet;
    AtFacts(h, w, k, held, born);
    ResolveEnabled(h, w, k, held, born);
    OnlyLocalIsInconsiderate(w, s);
    x, w' := StoreResolution(h, w, s, k);
    FollowStored(h, w, s, x, w', k, held, born);
  }

  lemma ResolveEnabled(h: Hashes, w: World, k: nat, held: seq<map<Ref, Event>>, born: set<Ref>)
    requires Roomy(h) && At(h, w, k, held, born) && k < 100 && SHARED in held[0] && Watched(w, 0, SHARED)
    requires Ref(NETWORK, Mint(k)) !in born
    ensures Enabled(h, w, Resolve(0, SHARED, k + 1, Mint(k)))
  {
    hide Inv, Reaches, IsCopyRef, CollisionFree;
    assert SHARED in HeldAt(w, 0);
  }

  lemma DoReceive(h: Hashes, w: World, k: nat, held: seq<map<Ref, Event>>, born: set<Ref>, i: nat, j: nat, r: Ref)
    returns (w': World)
    requires At(h, w, k, held, born) && k < 100 && i < 3 && j < 3 && r in held[j] && r !in held[i] && r in born
    requires RefOf(held[j][r]) == r && (r == SHARED ==> !Parse(held[j][r]).Resolves?)
    ensures Stored(h, w, Receive(i, j, r, k + 1), held[j][r], w')
    ensures At(h, w', k + 1, held[i := held[i][r := held[j][r]]], born)
    ensures CalmInv(h, w) ==> CalmInv(h, w')
    ensures forall x {:trigger Watched(w', 0, x)} :: Watched(w, 0, x) ==> Watched(w', 0, x)
  {
    var s := Receive(i, j, r, k + 1);
    hide Inv, Enabled, Run, CalmInv, Considerate, Next, Reaches, StoresAt, Watched, HeldAt, At, NeverResolves, Quiet;
    AtFacts(h, w, k, held, born);
    assert r in HeldAt(w, j) && r !in HeldAt(w, i);
    ReceiveEnabled(h, w, s);
    OnlyLocalIsInconsiderate(w, s);
    w' := StoreReceived(h, w, s, k);
    FollowStored(h, w, s, held[j][r], w', k, held, born);
    assert born + {r} == born;
  }

  lemma ReceiveEnabled(h: Hashes, w: World, s: Step)
    requires s.Receive? && s.i < |w.nodes| && s.j < |w.nodes| && s.r in HeldAt(w, s.j)
    ensures Enabled(h, w, s)
  {
  }

  lemma DoCopy(h: Hashes, w: World, k: nat, held: seq<map<Ref, Event>>, born: set<Ref>, x: Ref, copy: Event)
    returns (w': World)
    requires At(h, w, k, held, born) && k < 100 && x in held[0] && Parse(held[0][x]).Resolves?
    requires TargetOf(held[0][x]) in held[0] && copy == Recover(h, held[0][TargetOf(held[0][x])])
    requires RefOf(copy) !in held[0] && RefOf(copy) != SHARED
    ensures At(h, w', k + 1, held[0 := held[0][RefOf(copy) := copy]], born + {RefOf(copy)})
    ensures CalmInv(h, w) ==> CalmInv(h, w')
  {
    var s := Copy(0, x, k + 1);
    hide Inv, Enabled, Run, CalmInv, Considerate, Next, Reaches, StoresAt, Watched, HeldAt, At, NeverResolves, Quiet;
    AtFacts(h, w, k, held, born);
    assert HeldAt(w, 0) == held[0];
    CopyEnabled(h, w, s);
    OnlyLocalIsInconsiderate(w, s);
    w' := StoreCopy(h, w, s, copy, k);
    FollowStored(h, w, s, copy, w', k, held, born);
  }

  lemma CopyEnabled(h: Hashes, w: World, s: Step)
    requires s.Copy? && s.i < |w.nodes| && s.x in HeldAt(w, s.i) && Parse(HeldAt(w, s.i)[s.x]).Resolves?
    requires TargetOf(HeldAt(w, s.i)[s.x]) in HeldAt(w, s.i)
    ensures Enabled(h, w, s)
  {
  }

  /****** A late variant ******/

  lemma PlainNameIsConsiderate(w: World, i: nat, payload: byte, wall: Instant, mint: Text)
    requires NeverResolves(w, SHARED)
    ensures Considerate(w, Local(i, Produced(NAME, payload), wall, mint))
  {
  }

  ghost function ConflictHeld(y: Event, z: Event): seq<map<Ref, Event>> {
    [map[SHARED := y], map[SHARED := z], map[]]
  }

  /** Two producers use one ID for different events, and their nodes compare what they hold. */
  lemma ConflictArises(h: Hashes) returns (y: Event, z: Event, w: World)
    requires Roomy(h)
    ensures At(h, w, 3, ConflictHeld(y, z), {SHARED}) && CalmInv(h, w) && Watched(w, 0, SHARED)
    ensures RefOf(y) == RefOf(z) == SHARED && Parse(y).Plain? && Parse(z).Plain? && y != z
  {
    hide At, CalmInv, Considerate, Watched, Roomy, Stored, Initial;
    StartsHere(h);
    var v: World;
    assert NeverResolves(Start(), SHARED);
    PlainNameIsConsiderate(Start(), 0, 1, 1, Mint(0));
    y, v := DoLocal(h, Start(), 0, [map[], map[], map[]], {}, 0, NAME, 1);
    assert [map[], map[], map[]][0 := map[][SHARED := y]] == [map[SHARED := y], map[], map[]];
    assert {} + {SHARED} == {SHARED};
    assert NeverResolves(v, SHARED) by { AtFacts(h, v, 1, [map[SHARED := y], map[], map[]], {SHARED}); }
    PlainNameIsConsiderate(v, 1, 2, 2, Mint(1));
    z, v := DoLocal(h, v, 1, [map[SHARED := y], map[], map[]], {SHARED}, 1, NAME, 2);
    assert [map[SHARED := y], map[], map[]][1 := map[][SHARED := z]] == ConflictHeld(y, z);
    assert {SHARED} + {SHARED} == {SHARED};
    w := FollowObserved(h, v, Observe(0, 1, SHARED), 2, ConflictHeld(y, z), {SHARED});
  }

  /** The third node has received the resolution, and no variant of what it resolves. */
  ghost function ResolvedHeld(y: Event, z: Event, x: Event): seq<map<Ref, Event>> {
    [map[SHARED := y, RefOf(x) := x], map[SHARED := z], map[RefOf(x) := x]]
  }

  lemma ResolutionSpreads(h: Hashes) returns (y: Event, z: Event, x: Event, v: World)
    requires Roomy(h)
    ensures At(h, v, 5, ResolvedHeld(y, z, x), {SHARED, Ref(NETWORK, Mint(3))}) && CalmInv(h, v)
    ensures RefOf(y) == RefOf(z) == SHARED && Parse(y).Plain? && Parse(z).Plain? && y != z
    ensures RefOf(x) == Ref(NETWORK, Mint(3)) && Parse(x).Resolves? && TargetOf(x) == SHARED
  {
    hide At, CalmInv, Watched, Roomy, Stored;
    var w: World;
    y, z, w := ConflictArises(h);
    x, w := DoResolve(h, w, 3, ConflictHeld(y, z), {SHARED});
    var held := [map[SHARED := y, RefOf(x) := x], map[SHARED := z], map[]];
    assert ConflictHeld(y, z)[0 := map[SHARED := y][RefOf(x) := x]] == held;
    assert {SHARED} + {RefOf(x)} == {SHARED, RefOf(x)};
    v := DoReceive(h, w, 4, held, {SHARED, RefOf(x)}, 2, 0, RefOf(x));
    assert held[2 := map[][RefOf(x) := x]] == ResolvedHeld(y, z, x);
  }

  /** In a reachable world, with considerate producers, a node that has received a resolution before any
      variant is about to store one that is late: another node's, or a producer's own. Either commits,
      and leaves the variant hidden and without a copy. */
  lemma LateStepIsReachable(h: Hashes) returns (v: World)
    requires Roomy(h)
    ensures Initial(Start()) && Reaches(h, Start(), v, 5) && CalmInv(h, v) && |v.nodes| == 3
    ensures NothingToRepair(h, HeldAt(v, 2))
    ensures forall s :: s in {Receive(2, 1, SHARED, 6), Local(2, Produced(NAME, 3), 6, Mint(5))} ==>
      && Enabled(h, v, s) && Considerate(v, s) && StepLate(h, v, s, 2, SHARED)
      && OwedAt(h, Next(h, v, s), 2, SHARED)
  {
    hide At, CalmInv, Roomy, Stored, Initial, Reaches, OwedAt, StepLate, Enabled, Considerate, Next, NothingToRepair;
    StartsHere(h);
    var y, z, x, w := ResolutionSpreads(h);
    v := w;
    var held := ResolvedHeld(y, z, x);
    var born := {SHARED, RefOf(x)};
    AtFacts(h, v, 5, held, born);
    ThirdNode(h, x);
    var received := Receive(2, 1, SHARED, 6);
    var produced := Local(2, Produced(NAME, 3), 6, Mint(5));
    var w1 := DoReceive(h, v, 5, held, born, 2, 1, SHARED);
    OnlyLocalIsInconsiderate(v, received);
    LateHere(h, v, received, z, w1);
    PlainNameIsConsiderate(v, 2, 3, 6, Mint(5));
    var e, w2 := DoLocal(h, v, 5, held, born, 2, NAME, 3);
    LateHere(h, v, produced, e, w2);
  }

  lemma ThirdNode(h: Hashes, x: Event)
    requires Roomy(h) && RefOf(x) == Ref(NETWORK, Mint(3)) && Parse(x).Resolves? && TargetOf(x) == SHARED
    ensures var m := map[RefOf(x) := x];
      LateId(m, SHARED) && NothingToRepair(h, m) && forall e: Event :: RefOf(Recover(h, e)) !in m
  {
    var m := map[RefOf(x) := x];
    assert m[RefOf(x)] == x;
    forall e: Event ensures RefOf(Recover(h, e)) !in m {
      CopyIsCopyRef(h, e);
    }
  }

  lemma LateHere(h: Hashes, v: World, s: Step, e: Event, w: World)
    requires CalmInv(h, v) && (s.Local? || s.Receive?) && Considerate(v, s) && Stored(h, v, s, e, w) && s.i == 2
    requires LateId(HeldAt(v, 2), SHARED) && RefOf(e) == SHARED && RefOf(Recover(h, e)) !in HeldAt(v, 2)
    ensures Enabled(h, v, s) && StepLate(h, v, s, 2, SHARED) && OwedAt(h, Next(h, v, s), 2, SHARED)
  {
    hide CalmInv, Inv, Enabled, Considerate, Next, Run, OwedAt, Superseded;
    LateOrOpens(h, v, s, 2, SHARED);
    StepOwed(h, v, s, 2, SHARED);
  }

  /****** A reused resolution ID ******/

  /** Two nodes that hold the same variant and its copy, and different events under the resolution's ID. */
  ghost function SplitA(e: Event, copy: Event, x: Event): map<Ref, Event> {
    map[RefOf(e) := e, RefOf(copy) := copy, RefOf(x) := x]
  }

  /** The second node receives the first one's event, the third has another under that ID. */
  lemma SharedConflictArises(h: Hashes) returns (e: Event, z: Event, w: World)
    requires Roomy(h)
    ensures At(h, w, 4, [map[SHARED := e], map[SHARED := e], map[SHARED := z]], {SHARED}) && Watched(w, 0, SHARED)
    ensures RefOf(e) == SHARED && Parse(e).Plain?
  {
    hide At, CalmInv, Considerate, Watched, Roomy, Stored, Initial;
    StartsHere(h);
    var v: World;
    e, v := DoLocal(h, Start(), 0, [map[], map[], map[]], {}, 0, NAME, 1);
    assert [map[], map[], map[]][0 := map[][SHARED := e]] == [map[SHARED := e], map[], map[]];
    assert {} + {SHARED} == {SHARED};
    v := DoReceive(h, v, 1, [map[SHARED := e], map[], map[]], {SHARED}, 1, 0, SHARED);
    assert [map[SHARED := e], map[], map[]][1 := map[][SHARED := e]] == [map[SHARED := e], map[SHARED := e], map[]];
    z, v := DoLocal(h, v, 2, [map[SHARED := e], map[SHARED := e], map[]], {SHARED}, 2, NAME, 2);
    assert [map[SHARED := e], map[SHARED := e], map[]][2 := map[][SHARED := z]]
      == [map[SHARED := e], map[SHARED := e], map[SHARED := z]];
    assert {SHARED} + {SHARED} == {SHARED};
    w := FollowObserved(h, v, Observe(0, 2, SHARED), 3,
      [map[SHARED := e], map[SHARED := e], map[SHARED := z]], {SHARED});
  }

  /** Without considerate producers a world is reachable in which two nodes have nothing to exchange and
      show different references for good. */
  lemma ReusedIdIsReachable(h: Hashes) returns (v: World, e: Event, x: Event, y: Event)
    requires Roomy(h)
    ensures Initial(Start()) && Reaches(h, Start(), v, 8) && Inv(h, v) && |v.nodes| == 3
    ensures HeldAt(v, 0) == SplitA(e, Recover(h, e), x) && HeldAt(v, 1) == SplitA(e, Recover(h, e), y)
    ensures Parse(x).Resolves? && Parse(y).Plain? && RefOf(x) == RefOf(y) && TargetOf(x) == RefOf(e)
    ensures Idle(NETWORK, HeldAt(v, 0), HeldAt(v, 1))
    ensures Visible(HeldAt(v, 0), NETWORK).Keys != Visible(HeldAt(v, 1), NETWORK).Keys
  {
    hide At, CalmInv, Considerate, Watched, Roomy, Stored, Initial, Reaches, Inv, Idle, Visible;
    StartsHere(h);
    var z: Event;
    e, z, v := SharedConflictArises(h);
    var others := [map[SHARED := e], map[SHARED := z]];
    assert [map[SHARED := e], map[SHARED := e], map[SHARED := z]] == [map[SHARED := e]] + others;
    x, v := DoResolve(h, v, 4, [map[SHARED := e]] + others, {SHARED});
    var c := Recover(h, e);
    DifferentIds(h, e, x);
    assert ([map[SHARED := e]] + others)[0 := map[SHARED := e][RefOf(x) := x]]
      == [map[SHARED := e, RefOf(x) := x]] + others;
    v := DoCopy(h, v, 5, [map[SHARED := e, RefOf(x) := x]] + others, {SHARED} + {RefOf(x)}, RefOf(x), c);
    var a := SplitA(e, c, x);
    assert map[SHARED := e, RefOf(x) := x][RefOf(c) := c] == a;
    assert ([map[SHARED := e, RefOf(x) := x]] + others)[0 := a] == [a] + others;
    v := DoReceive(h, v, 6, [a] + others, {SHARED} + {RefOf(x)} + {RefOf(c)}, 1, 0, RefOf(c));
    var both := map[SHARED := e, RefOf(c) := c];
    assert ([a] + others)[1 := map[SHARED := e][RefOf(c) := c]] == [a, both, map[SHARED := z]];
    assert Ref(NETWORK, Mint(7)) !in {SHARED} + {RefOf(x)} + {RefOf(c)} by { NotACopy(h, 7, e); }
    y, v := DoLocal(h, v, 7, [a, both, map[SHARED := z]], {SHARED} + {RefOf(x)} + {RefOf(c)}, 1, Mint(4), 3);
    var b := SplitA(e, c, y);
    assert [a, both, map[SHARED := z]][1 := both[RefOf(y) := y]] == [a, b, map[SHARED := z]];
    AtFacts(h, v, 8, [a, b, map[SHARED := z]], {SHARED} + {RefOf(x)} + {RefOf(c)} + {RefOf(y)});
    ReusedResolutionIdBlocks(h, x, y, e);
  }

  lemma NotACopy(h: Hashes, k: byte, e: Event)
    requires Roomy(h)
    ensures Ref(NETWORK, Mint(k)) != RefOf(Recover(h, e)) && SHARED != RefOf(Recover(h, e))
  {
    CopyIsCopyRef(h, e);
  }

  lemma DifferentIds(h: Hashes, e: Event, x: Event)
    requires Roomy(h) && RefOf(e) == SHARED && RefOf(x) == Ref(NETWORK, Mint(4))
    ensures RefOf(Recover(h, e)) !in {SHARED, RefOf(x)} && SHARED != RefOf(x)
  {
    NotACopy(h, 4, e);
  }
}
