/** Runs in which producers never reuse an ID that the daemon minted for a resolution, and what
    follows for them: synchronization converges and preserves every variant. */
module CalmWorld {
  import opened Store
  import opened Ingest
  import opened Replication
  import opened Replica
  import opened World

  /** No producer names a resolution event's ID. */
  ghost predicate Considerate(w: World, s: Step) {
    s.Local? ==> forall e :: e in w.held && RefOf(e) == LocalRef(s.q, s.mint) ==> !Parse(e).Resolves?
  }

  /** An observed conflict is between two envelopes that are neither copies nor resolutions. */
  ghost predicate Disputable(h: Hashes, held: set<Event>, r: Ref) {
    !IsCopyRef(h, r) && forall e :: e in held && RefOf(e) == r ==> !Parse(e).Resolves?
  }

  ghost predicate ObservedDisputable(h: Hashes, w: World) {
    forall k, o {:trigger o in w.nodes[k].store.observed} ::
      0 <= k < |w.nodes| && o in w.nodes[k].store.observed ==>
        Ref(o.network, o.id) in w.born && Disputable(h, w.held, Ref(o.network, o.id))
  }

  ghost predicate AllUndisputed(h: Hashes, held: set<Event>) {
    forall x {:trigger Undisputed(h, held, x)} :: x in held ==> Undisputed(h, held, x)
  }

  ghost predicate CalmInv(h: Hashes, w: World) {
    Inv(h, w) && AllUndisputed(h, w.held) && ObservedDisputable(h, w)
  }

  lemma InitialCalm(h: Hashes, w: World)
    requires CollisionFree(h) && Initial(w)
    ensures CalmInv(h, w)
  {
  }

  /** The held envelopes of a calm world satisfy what the session theorems ask for. */
  lemma HeldIsCalm(h: Hashes, w: World)
    requires CalmInv(h, w)
    ensures Calm(h, w.held)
  {
    forall e | e in w.held ensures Genuine(h, e) {
      assert Sound(h, w, e);
    }
  }

  /** An envelope that keeps all resolutions undisputed: it disputes no resolution, and if it is one
      itself, it disputes nothing and supersedes something disputable. */
  ghost predicate Peaceful(h: Hashes, w: World, e: Event) {
    && !Parse(e).Malformed?
    && (forall x :: x in w.held && Parse(x).Resolves? ==>
          && (RefOf(e) == RefOf(x) ==> e == x)
          && (RefOf(e) == TargetOf(x) ==> !Parse(e).Resolves?))
    && (Parse(e).Resolves? ==>
          && (forall x :: x in w.held && RefOf(x) == RefOf(e) ==> x == e)
          && TargetOf(e) != RefOf(e)
          && Disputable(h, w.held, TargetOf(e)))
  }

  lemma PeacefulKeepsUndisputed(h: Hashes, w: World, e: Event)
    requires AllUndisputed(h, w.held) && Peaceful(h, w, e)
    ensures AllUndisputed(h, w.held + {e})
  {
    var held' := w.held + {e};
    forall x | x in held' ensures Undisputed(h, held', x) {
      if x in w.held {
        assert Undisputed(h, w.held, x);
      }
    }
  }

  /** No resolution with the reference of something observed. */
  ghost predicate QuietEntry(h: Hashes, w: World, e: Event) {
    Parse(e).Resolves? ==> e in w.held || RefOf(e) !in w.born
  }

  lemma EntryKeepsObserved(h: Hashes, w: World, i: nat, c: Commit)
    requires NodesValid(w) && ObservedDisputable(h, w) && i < |w.nodes| && c.Committed? && Effect(w.nodes[i], c)
    requires QuietEntry(h, w, c.event)
    ensures ObservedDisputable(h, After(w, i, c))
  {
    hide PrimaryKeyed, IdsIndexed, ArrivalsIndexed, ClockCovers, Extends, IsCopyRef;
    var w' := After(w, i, c);
    forall k, o | 0 <= k < |w'.nodes| && o in w'.nodes[k].store.observed
      ensures Ref(o.network, o.id) in w'.born && Disputable(h, w'.held, Ref(o.network, o.id))
    {
      assert o in w.nodes[k].store.observed;
    }
  }

  lemma EntryKeepsCalm(h: Hashes, w: World, s: Step)
    requires CalmInv(h, w) && Enabled(h, w, s) && (s.Local? || s.Resolve? || s.Receive? || s.Copy?)
    requires s.i < |w.nodes| && Run(h, w, s).Committed? && Effect(w.nodes[s.i], Run(h, w, s))
    requires Peaceful(h, w, Run(h, w, s).event) && QuietEntry(h, w, Run(h, w, s).event)
    ensures CalmInv(h, Next(h, w, s))
  {
    hide Inv, AllUndisputed, ObservedDisputable, Peaceful, QuietEntry, Effect, Enabled, Run;
    StepKeepsInv(h, w, s);
    PeacefulKeepsUndisputed(h, w, Run(h, w, s).event);
    assert NodesValid(w) by { InvNodesValid(h, w); }
    EntryKeepsObserved(h, w, s.i, Run(h, w, s));
  }

  lemma InvNodesValid(h: Hashes, w: World)
    requires Inv(h, w)
    ensures NodesValid(w) && NodesHold(w) && HeldSound(h, w) && BornNamed(w)
  {
  }

  lemma LocalIsPeaceful(h: Hashes, w: World, s: Step)
    requires CalmInv(h, w) && s.Local? && Enabled(h, w, s) && Considerate(w, s) && Run(h, w, s).Committed?
    ensures s.i < |w.nodes| && Effect(w.nodes[s.i], Run(h, w, s))
    ensures Peaceful(h, w, Run(h, w, s).event) && QuietEntry(h, w, Run(h, w, s).event)
  {
    hide PrimaryKeyed, IdsIndexed, ArrivalsIndexed, ClockCovers, Extends, CollisionFree, Disputable;
    IngestInternalEffect(w.nodes[s.i], s.q, s.wall, s.mint);
  }

  lemma ResolveIsPeaceful(h: Hashes, w: World, s: Step)
    requires CalmInv(h, w) && s.Resolve? && Enabled(h, w, s) && Run(h, w, s).Committed?
    ensures s.i < |w.nodes| && Effect(w.nodes[s.i], Run(h, w, s))
    ensures Peaceful(h, w, Run(h, w, s).event) && QuietEntry(h, w, Run(h, w, s).event)
  {
    hide PrimaryKeyed, IdsIndexed, ArrivalsIndexed, ClockCovers, Extends, CollisionFree, IsCopyRef, Genuine;
    var e := Run(h, w, s).event;
    ResolveEnters(h, w, s);
    var o :| o in w.nodes[s.i].store.observed && Ref(o.network, o.id) == s.r;
    assert Disputable(h, w.held, s.r);
    forall x | x in w.held ensures RefOf(x) != RefOf(e) && (Parse(x).Resolves? ==> TargetOf(x) != RefOf(e)) {
      assert Sound(h, w, x);
    }
  }

  lemma ReceiveIsPeaceful(h: Hashes, w: World, s: Step)
    requires CalmInv(h, w) && s.Receive? && Enabled(h, w, s) && Run(h, w, s).Committed?
    ensures s.i < |w.nodes| && Effect(w.nodes[s.i], Run(h, w, s))
    ensures Peaceful(h, w, Run(h, w, s).event) && QuietEntry(h, w, Run(h, w, s).event)
  {
    hide PrimaryKeyed, IdsIndexed, ArrivalsIndexed, ClockCovers, Extends, CollisionFree, IsCopyRef, Genuine;
    ReceiveEnters(h, w, s);
    var e := Run(h, w, s).event;
    assert Undisputed(h, w.held, e);
    forall x | x in w.held && Parse(x).Resolves?
      ensures (RefOf(e) == RefOf(x) ==> e == x) && (RefOf(e) == TargetOf(x) ==> !Parse(e).Resolves?)
    {
      assert Undisputed(h, w.held, x);
    }
  }

  lemma CopyIsPeaceful(h: Hashes, w: World, s: Step)
    requires CalmInv(h, w) && s.Copy? && Enabled(h, w, s) && Run(h, w, s).Committed?
    ensures s.i < |w.nodes| && Effect(w.nodes[s.i], Run(h, w, s))
    ensures Peaceful(h, w, Run(h, w, s).event) && QuietEntry(h, w, Run(h, w, s).event)
  {
    hide PrimaryKeyed, IdsIndexed, ArrivalsIndexed, ClockCovers, Extends, CollisionFree, Stamped;
    var m := Events(w.nodes[s.i].store);
    var y := m[TargetOf(m[s.x])];
    var e := Recover(h, y);
    HeldFacts(h, w, s.i, s.x);
    HeldFacts(h, w, s.i, TargetOf(m[s.x]));
    assert Undisputed(h, w.held, m[s.x]) && Undisputed(h, w.held, y);
    CopyEnters(h, w, s);
    CopyIsCopyRef(h, y);
    CopyIsSound(h, w, y);
    assert Parse(e).Plain?;
    forall x | x in w.held && Parse(x).Resolves? ensures RefOf(e) == RefOf(x) ==> e == x {
      assert Sound(h, w, x);
    }
  }

  lemma ObserveKeepsCalm(h: Hashes, w: World, s: Step)
    requires CalmInv(h, w) && s.Observe? && Enabled(h, w, s)
    ensures CalmInv(h, Next(h, w, s))
  {
    hide PrimaryKeyed, IdsIndexed, ArrivalsIndexed, ClockCovers, Extends, CollisionFree, Stamped;
    StepKeepsInv(h, w, s);
    var e, f := Events(w.nodes[s.i].store)[s.r], Events(w.nodes[s.j].store)[s.r];
    HeldFacts(h, w, s.i, s.r);
    HeldFacts(h, w, s.j, s.r);
    assert Disputable(h, w.held, s.r) by {
      DifferentEnvelopesDisputable(h, w, e, f);
    }
    var w' := Next(h, w, s);
    forall k, o | 0 <= k < |w'.nodes| && o in w'.nodes[k].store.observed
      ensures Ref(o.network, o.id) in w'.born && Disputable(h, w'.held, Ref(o.network, o.id))
    {
      if Ref(o.network, o.id) != s.r {
        assert o in w.nodes[k].store.observed;
      }
    }
  }

  lemma DifferentEnvelopesDisputable(h: Hashes, w: World, e: Event, f: Event)
    requires Inv(h, w) && AllUndisputed(h, w.held)
    requires e in w.held && f in w.held && RefOf(e) == RefOf(f) && e != f
    ensures Disputable(h, w.held, RefOf(e))
  {
    assert Sound(h, w, e) && Sound(h, w, f);
    forall x | x in w.held && RefOf(x) == RefOf(e) ensures !Parse(x).Resolves? {
      assert Undisputed(h, w.held, x);
    }
  }

  /** Every considerate step keeps the world calm. */
  lemma StepKeepsCalm(h: Hashes, w: World, s: Step)
    requires CalmInv(h, w) && Enabled(h, w, s) && Considerate(w, s)
    ensures CalmInv(h, Next(h, w, s))
  {
    hide Inv, AllUndisputed, ObservedDisputable, Peaceful, QuietEntry, Effect, Enabled, Considerate;
    if s.Observe? {
      ObserveKeepsCalm(h, w, s);
    } else if s.Restart? {
      RestartChangesNothing(h, w, s);
    } else if Run(h, w, s).Committed? {
      if s.Local? {
        LocalIsPeaceful(h, w, s);
      } else if s.Resolve? {
        ResolveIsPeaceful(h, w, s);
      } else if s.Receive? {
        ReceiveIsPeaceful(h, w, s);
      } else {
        CopyIsPeaceful(h, w, s);
      }
      EntryKeepsCalm(h, w, s);
    }
  }

  lemma RestartChangesNothing(h: Hashes, w: World, s: Step)
    requires Inv(h, w) && s.Restart? && Enabled(h, w, s)
    ensures Next(h, w, s) == w
  {
  }
}
