/** When the mutual recursion ends: exactly when the chain of superseded resolutions does. */
module Termination {
  import opened Hlc
  import opened Store
  import opened Ingest
  import opened Replication

  /** Following targets from r among the stored events m reaches, in at most k steps, something that
      is not a resolution. `made` holds the copies the calls on the way have stored. */
  ghost predicate ChainEnds(h: Hashes, m: map<Ref, Event>, r: Ref, made: set<Ref>, k: nat)
    decreases k
  {
    r !in made &&
    (r in m && Parse(m[r]).Resolves? ==>
      k > 0 && ChainEnds(h, m, TargetOf(m[r]), made + {RefOf(Recover(h, m[r]))}, k - 1))
  }

  /** What a node can hold beyond m while it runs such a chain. */
  ghost predicate Grown(m: map<Ref, Event>, made: set<Ref>, now: map<Ref, Event>) {
    && (forall r :: r in m ==> r in now && now[r] == m[r])
    && (forall r :: r in now ==> r in m || r in made)
  }

  /** Stored resolutions parse: no other path writes to the resolution stream. */
  ghost predicate WellParsed(m: map<Ref, Event>) {
    forall r :: r in m ==> RefOf(m[r]) == r && Normalized(m[r]) && !Parse(m[r]).Malformed?
  }

  /** A chain of at most k steps needs at most k + 1 nested receives. */
  lemma {:induction false} EndingChainTerminates(h: Hashes, n: Node, r: Ref, walls: nat -> Instant, at: nat,
      m: map<Ref, Event>, made: set<Ref>, k: nat)
    requires ValidNode(n) && CollisionFree(h) && WellParsed(m) && Grown(m, made, Events(n.store))
    requires ChainEnds(h, m, r, made, k)
    ensures !Materialize(h, n, r, walls, at, k + 1).Diverged?
    decreases k
  {
    hide PrimaryKeyed, IdsIndexed, ArrivalsIndexed, ClockCovers, Extends;
    FindIsEvents(n.store, r);
    if r in m {
      var copy := Recover(h, m[r]);
      if Parse(m[r]).Resolves? && Normalized(copy) {
        ApplyReplicatedEffect(n, copy, walls(at));
        var c := ApplyReplicated(n, copy, walls(at));
        if c.Committed? {
          EndingChainTerminates(h, c.node, TargetOf(m[r]), walls, at + 1, m, made + {RefOf(copy)}, k - 1);
        }
      }
    }
  }

  /** Stored resolutions that only point at each other. */
  ghost predicate Loops(m: map<Ref, Event>, loop: seq<Ref>) {
    forall r {:trigger PointsInto(m, r, loop)} :: r in loop ==> PointsInto(m, r, loop)
  }

  ghost predicate PointsInto(m: map<Ref, Event>, r: Ref, loop: seq<Ref>) {
    r in m && Parse(m[r]).Resolves? && TargetOf(m[r]) in loop
  }

  ghost predicate NeverDone(o: Outcome) {
    o.Diverged? || (o.Failed? && (o.error.ClockFailed? || o.error.SequenceExhausted?))
  }

  /** Storing a recovered copy of a stored event: it fits, or a resource has run out. */
  lemma ReceiveCopy(h: Hashes, n: Node, original: Event, wall: Instant) returns (c: Commit)
    requires ValidNode(n) && CollisionFree(h) && Faithful(h, Events(n.store)) && WellParsed(Events(n.store))
    requires RefOf(original) in Events(n.store) && Events(n.store)[RefOf(original)] == original
    ensures c == ApplyReplicated(n, Recover(h, original), wall)
    ensures Normalized(Recover(h, original)) && Parse(Recover(h, original)) == Parse(original)
    ensures c.Rejected? ==> c.error.ClockFailed? || c.error.SequenceExhausted?
    ensures c.Committed? ==>
      && ValidNode(c.node) && Effect(n, c) && c.event == Recover(h, original)
      && Faithful(h, Events(c.node.store)) && WellParsed(Events(c.node.store))
  {
    var copy := Recover(h, original);
    c := ApplyReplicated(n, copy, wall);
    FindIsEvents(n.store, RefOf(copy));
    ApplyReplicatedEffect(n, copy, wall);
    if c.Committed? {
      FaithfulAfterCopy(h, Events(n.store), original);
    }
  }

  /** Materializing a stored resolution is storing its copy and then materializing its target. */
  lemma MaterializeStep(h: Hashes, n: Node, r: Ref, walls: nat -> Instant, at: nat, fuel: nat) returns (c: Commit,
      next: Ref)
    requires ValidNode(n) && CollisionFree(h) && Faithful(h, Events(n.store)) && WellParsed(Events(n.store))
    requires r in Events(n.store) && Parse(Events(n.store)[r]).Resolves? && fuel > 0
    ensures var original := Events(n.store)[r];
      && c == ApplyReplicated(n, Recover(h, original), walls(at)) && next == TargetOf(original)
      && (c.Rejected? ==> NeverDone(Materialize(h, n, r, walls, at, fuel)))
      && (c.Committed? ==>
            && ValidNode(c.node)
            && Events(c.node.store) == Events(n.store)[RefOf(Recover(h, original)) := Recover(h, original)]
            && (forall x :: x in Events(n.store) ==>
              x in Events(c.node.store) && Events(c.node.store)[x] == Events(n.store)[x])
            && Faithful(h, Events(c.node.store)) && WellParsed(Events(c.node.store))
            && (NeverDone(Materialize(h, c.node, next, walls, at + 1, fuel - 1)) ==>
                  NeverDone(Materialize(h, n, r, walls, at, fuel))))
  {
    hide PrimaryKeyed, IdsIndexed, ArrivalsIndexed, ClockCovers, Extends, Faithful, CollisionFree;
    FindIsEvents(n.store, r);
    c := ReceiveCopy(h, n, Events(n.store)[r], walls(at));
    next := TargetOf(Events(n.store)[r]);
  }

  lemma LoopsGrows(m: map<Ref, Event>, loop: seq<Ref>, m': map<Ref, Event>)
    requires Loops(m, loop) && forall r :: r in m ==> r in m' && m'[r] == m[r]
    ensures Loops(m', loop)
  {
    forall x | x in loop ensures PointsInto(m', x, loop) {
      assert PointsInto(m, x, loop);
    }
  }

  lemma {:induction false} LoopNeverDone(h: Hashes, n: Node, r: Ref, walls: nat -> Instant, at: nat, fuel: nat,
      loop: seq<Ref>)
    requires ValidNode(n) && CollisionFree(h) && Faithful(h, Events(n.store)) && WellParsed(Events(n.store))
    requires Loops(Events(n.store), loop) && r in loop
    ensures NeverDone(Materialize(h, n, r, walls, at, fuel))
    decreases fuel
  {
    hide PrimaryKeyed, IdsIndexed, ArrivalsIndexed, ClockCovers, Faithful, CollisionFree, WellParsed;
    assert PointsInto(Events(n.store), r, loop);
    if fuel > 0 {
      var c, next := MaterializeStep(h, n, r, walls, at, fuel);
      if c.Committed? {
        LoopsGrows(Events(n.store), loop, Events(c.node.store));
        LoopNeverDone(h, c.node, next, walls, at + 1, fuel - 1, loop);
      }
    } else {
      OutOfFuel(h, n, r, walls, at);
    }
  }

  lemma FaithfulAfterCopy(h: Hashes, m: map<Ref, Event>, original: Event)
    requires CollisionFree(h) && Faithful(h, m)
    ensures Faithful(h, m[RefOf(Recover(h, original)) := Recover(h, original)])
  {
    var copy := Recover(h, original);
    var m' := m[RefOf(copy) := copy];
    forall e: Event | RefOf(Recover(h, e)) in m' ensures m'[RefOf(Recover(h, e))] == Recover(h, e) {
      if RefOf(Recover(h, e)) == RefOf(copy) {
        RecoverInjective(h, e, original);
      }
    }
  }

  function After(path: seq<Ref>, r: Ref, i: nat): Ref
    requires i < |path|
  {
    if i + 1 < |path| then path[i + 1] else r
  }

  /** The calls so far: each reference on the path names a resolution of the next one, and its copy
      has been stored. */
  ghost predicate Path(h: Hashes, m: map<Ref, Event>, now: map<Ref, Event>, path: seq<Ref>, r: Ref, made: set<Ref>) {
    && (forall i {:trigger Link(h, m, now, path, r, i)} :: 0 <= i < |path| ==> Link(h, m, now, path, r, i))
    && (forall x :: x in made ==> exists i :: 0 <= i < |path| && path[i] in m && x == RefOf(Recover(h, m[path[i]])))
  }

  ghost predicate Link(h: Hashes, m: map<Ref, Event>, now: map<Ref, Event>, path: seq<Ref>, r: Ref, i: nat)
    requires i < |path|
  {
    && path[i] in m && Parse(m[path[i]]).Resolves?
    && TargetOf(m[path[i]]) == After(path, r, i)
    && RefOf(Recover(h, m[path[i]])) in now
  }

  lemma {:induction false} EndlessChainNeverDone(h: Hashes, n: Node, r: Ref, walls: nat -> Instant, at: nat, fuel: nat,
      m: map<Ref, Event>, made: set<Ref>, path: seq<Ref>)
    requires ValidNode(n) && CollisionFree(h) && Faithful(h, Events(n.store)) && WellParsed(Events(n.store))
    requires Grown(m, made, Events(n.store)) && Path(h, m, Events(n.store), path, r, made)
    requires forall k: nat :: !ChainEnds(h, m, r, made, k)
    ensures NeverDone(Materialize(h, n, r, walls, at, fuel))
    decreases fuel
  {
    hide PrimaryKeyed, IdsIndexed, ArrivalsIndexed, ClockCovers, Faithful, CollisionFree, WellParsed, Path, Grown,
        ChainEnds;
    var now := Events(n.store);
    if r in made {
      ReturnNeverDone(h, n, r, walls, at, fuel, m, made, path);
    } else {
      EndlessGoesOn(h, m, r, made);
      GrownHolds(m, made, now, r);
      if fuel > 0 {
        var c, next := MaterializeStep(h, n, r, walls, at, fuel);
        if c.Committed? {
          var copy := RefOf(Recover(h, m[r]));
          PathStep(h, m, now, Events(c.node.store), path, r, made);
          EndlessChainNeverDone(h, c.node, next, walls, at + 1, fuel - 1, m, made + {copy}, path + [r]);
        }
      } else {
        OutOfFuel(h, n, r, walls, at);
      }
    }
  }

  lemma EndlessGoesOn(h: Hashes, m: map<Ref, Event>, r: Ref, made: set<Ref>)
    requires r !in made && forall k: nat :: !ChainEnds(h, m, r, made, k)
    ensures r in m && Parse(m[r]).Resolves?
    ensures forall k: nat :: !ChainEnds(h, m, TargetOf(m[r]), made + {RefOf(Recover(h, m[r]))}, k)
  {
    assert !ChainEnds(h, m, r, made, 0);
    forall k: nat ensures !ChainEnds(h, m, TargetOf(m[r]), made + {RefOf(Recover(h, m[r]))}, k) {
      assert !ChainEnds(h, m, r, made, k + 1);
    }
  }

  lemma GrownHolds(m: map<Ref, Event>, made: set<Ref>, now: map<Ref, Event>, r: Ref)
    requires Grown(m, made, now) && r in m
    ensures r in now && now[r] == m[r]
  {
  }

  lemma OutOfFuel(h: Hashes, n: Node, r: Ref, walls: nat -> Instant, at: nat)
    requires ValidNode(n) && r in Events(n.store)
    ensures NeverDone(Materialize(h, n, r, walls, at, 0))
  {
    FindIsEvents(n.store, r);
  }

  lemma CopyIsFaithful(h: Hashes, m: map<Ref, Event>, e: Event)
    requires CollisionFree(h) && Faithful(h, m) && RefOf(Recover(h, e)) in m && Parse(e).Resolves?
    ensures m[RefOf(Recover(h, e))] == Recover(h, e) && Parse(Recover(h, e)) == Parse(e)
  {
  }

  lemma ReturnNeverDone(h: Hashes, n: Node, r: Ref, walls: nat -> Instant, at: nat, fuel: nat,
      m: map<Ref, Event>, made: set<Ref>, path: seq<Ref>)
    requires ValidNode(n) && CollisionFree(h) && Faithful(h, Events(n.store)) && WellParsed(Events(n.store))
    requires Grown(m, made, Events(n.store)) && Path(h, m, Events(n.store), path, r, made) && r in made
    ensures NeverDone(Materialize(h, n, r, walls, at, fuel))
  {
    hide PrimaryKeyed, IdsIndexed, ArrivalsIndexed, ClockCovers, Faithful, CollisionFree, WellParsed, Materialize;
    var i :| 0 <= i < |path| && path[i] in m && r == RefOf(Recover(h, m[path[i]]));
    assert Link(h, m, Events(n.store), path, r, i);
    CopyIsFaithful(h, Events(n.store), m[path[i]]);
    ReturnLoops(h, m, Events(n.store), path, r, made, i);
    LoopNeverDone(h, n, r, walls, at, fuel, path[i + 1..] + [r]);
  }

  lemma PathStep(h: Hashes, m: map<Ref, Event>, now: map<Ref, Event>, next: map<Ref, Event>, path: seq<Ref>, r: Ref,
      made: set<Ref>)
    requires Path(h, m, now, path, r, made) && Grown(m, made, now) && r in m && Parse(m[r]).Resolves?
    requires Faithful(h, now) && next == now[RefOf(Recover(h, m[r])) := Recover(h, m[r])]
    ensures Path(h, m, next, path + [r], TargetOf(m[r]), made + {RefOf(Recover(h, m[r]))})
    ensures Grown(m, made + {RefOf(Recover(h, m[r]))}, next)
  {
    var path' := path + [r];
    forall i | 0 <= i < |path'| ensures Link(h, m, next, path', TargetOf(m[r]), i) {
      if i < |path| {
        assert Link(h, m, now, path, r, i);
      }
    }
    forall x | x in made + {RefOf(Recover(h, m[r]))}
      ensures exists i :: 0 <= i < |path'| && path'[i] in m && x == RefOf(Recover(h, m[path'[i]]))
    {
      if x in made {
        var i :| 0 <= i < |path| && path[i] in m && x == RefOf(Recover(h, m[path[i]]));
        assert path'[i] == path[i];
      } else {
        assert path'[|path|] == r;
      }
    }
  }

  /** A chain that comes back to a copy made on the way has closed a loop. */
  lemma ReturnLoops(h: Hashes, m: map<Ref, Event>, now: map<Ref, Event>, path: seq<Ref>, r: Ref, made: set<Ref>, i: nat)
    requires Path(h, m, now, path, r, made) && forall x :: x in m ==> x in now && now[x] == m[x]
    requires i < |path| && path[i] in m && r in now && Parse(now[r]) == Parse(m[path[i]])
    requires now[r].network == m[path[i]].network
    ensures Loops(now, path[i + 1..] + [r])
  {
    var loop := path[i + 1..] + [r];
    forall x | x in loop ensures PointsInto(now, x, loop) {
      var j :| 0 <= j < |loop| && loop[j] == x;
      if j + 1 < |loop| {
        var k := i + 1 + j;
        assert Link(h, m, now, path, r, k);
        assert x == path[k] && TargetOf(m[x]) == After(path, r, k) == loop[j + 1];
      } else {
        assert Link(h, m, now, path, r, i);
        assert x == r && TargetOf(now[r]) == TargetOf(m[path[i]]) == After(path, r, i) == loop[0];
      }
    }
  }

  /** The recursion on r ends if and only if the chain of resolutions from r does, up to a clock or
      sequence that runs out on the way. */
  lemma RecursionEndsIffChainEnds(h: Hashes, n: Node, r: Ref, walls: nat -> Instant)
    requires ValidNode(n) && CollisionFree(h) && Faithful(h, Events(n.store)) && WellParsed(Events(n.store))
    ensures (exists k: nat :: ChainEnds(h, Events(n.store), r, {}, k)) ==>
      exists fuel: nat :: !Materialize(h, n, r, walls, 0, fuel).Diverged?
    ensures !(exists k: nat :: ChainEnds(h, Events(n.store), r, {}, k)) ==>
      forall fuel: nat :: NeverDone(Materialize(h, n, r, walls, 0, fuel))
  {
    var m := Events(n.store);
    if k: nat :| ChainEnds(h, m, r, {}, k) {
      EndingChainTerminates(h, n, r, walls, 0, m, {}, k);
    } else {
      forall fuel: nat ensures NeverDone(Materialize(h, n, r, walls, 0, fuel)) {
        EndlessChainNeverDone(h, n, r, walls, 0, fuel, m, {}, []);
      }
    }
  }
}
