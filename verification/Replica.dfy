/** What a synchronization session does to the two replicas it joins.

    `history` is a finite set of envelopes that contains everything any replica of the mesh holds and
    every copy that its resolutions call for. */
module Replica {
  import opened Bytes
  import opened Store
  import opened Ingest
  import opened Replication

  /** Every stored envelope is in the history, under its own reference. */
  ghost predicate Holds(m: map<Ref, Event>, history: set<Event>) {
    forall r :: r in m ==> m[r] in history && RefOf(m[r]) == r
  }

  /** An event that carries a recovered ID is the variant that ID was derived from. */
  ghost predicate Genuine(h: Hashes, e: Event) {
    forall f: Event :: RefOf(Recover(h, f)) == RefOf(e) ==> e == Recover(h, f)
  }

  ghost predicate IsCopyRef(h: Hashes, r: Ref) {
    exists f: Event :: RefOf(Recover(h, f)) == r
  }

  /** x parses, and if it is a resolution it is the only envelope under its ID, and what it
      supersedes is neither a resolution nor a copy. */
  ghost predicate Undisputed(h: Hashes, history: set<Event>, x: Event) {
    && !Parse(x).Malformed?
    && (Parse(x).Resolves? ==>
          && (forall e :: e in history && RefOf(e) == RefOf(x) ==> e == x)
          && (forall e :: e in history && RefOf(e) == TargetOf(x) ==> !Parse(e).Resolves?)
          && !IsCopyRef(h, TargetOf(x)))
  }

  /** What every reachable mesh satisfies while producers do not reuse the daemon's own IDs. */
  ghost predicate Calm(h: Hashes, history: set<Event>) {
    && CollisionFree(h)
    && (forall e {:trigger Genuine(h, e)} :: e in history ==> Genuine(h, e))
    && (forall x {:trigger Undisputed(h, history, x)} :: x in history ==> Undisputed(h, history, x))
  }

  ghost predicate Supersedes(x: Event, e: Event) {
    Parse(x).Resolves? && TargetOf(x) == RefOf(e)
  }

  /** The copies that the resolutions in the history call for are in it. */
  ghost predicate Closed(h: Hashes, history: set<Event>) {
    forall x, e {:trigger Supersedes(x, e)} :: x in history && e in history && Supersedes(x, e) ==>
      Recover(h, e) in history
  }

  /** The references that a replica's resolution events supersede (conflictResolutionsTxn). */
  ghost function Superseded(m: map<Ref, Event>): set<Ref> {
    set x | x in m && Parse(m[x]).Resolves? :: TargetOf(m[x])
  }

  /** What a replica offers and shows in one network. */
  ghost function Visible(m: map<Ref, Event>, network: Text): map<Ref, Event> {
    map r | r in m && r.network == network && r !in Superseded(m) :: m[r]
  }

  /** A replica hides an ID of a network exactly if it holds a resolution event of that network about it:
      one on the resolution stream, of version 1 and strategy preserve-both, that is not about itself.
      What it holds and does not hide, it shows as it is stored. */
  lemma HiddenIffResolved(m: map<Ref, Event>, network: Text, id: Text)
    ensures Ref(network, id) in Superseded(m) <==> id != [] && exists x ::
      && x in m && m[x].network == network && m[x].id != id
      && m[x].stream == Ascii("system:conflict_resolution")
      && m[x].payload == Resolution(1, id, Ascii("preserve-both"))
    ensures Ref(network, id) in Visible(m, network) <==>
      Ref(network, id) in m && Ref(network, id) !in Superseded(m)
    ensures forall r :: r in Visible(m, network) ==> r.network == network && Visible(m, network)[r] == m[r]
  {
    if Ref(network, id) in Superseded(m) {
      var x :| x in m && Parse(m[x]).Resolves? && TargetOf(m[x]) == Ref(network, id);
      assert m[x].payload == Resolution(1, id, PRESERVE_BOTH);
    }
    if x :|
        && x in m && m[x].network == network && m[x].id != id && id != []
        && m[x].stream == RESOLUTION_STREAM && m[x].payload == Resolution(1, id, PRESERVE_BOTH)
    {
      assert Parse(m[x]) == Resolves(id) && TargetOf(m[x]) == Ref(network, id);
    }
  }

  /** The effect of one received event: it is stored, and if it is a resolution the replica's own
      variant of the superseded ID is copied. */
  ghost function Absorb(h: Hashes, m: map<Ref, Event>, e: Event): map<Ref, Event> {
    var stored := m[RefOf(e) := e];
    if Parse(e).Resolves? && TargetOf(e) in stored then
      var copy := Recover(h, stored[TargetOf(e)]);
      stored[RefOf(copy) := copy]
    else stored
  }

  /** The references of the copies a replica makes when it receives the events `d` of an offer. */
  ghost function Copies(h: Hashes, m: map<Ref, Event>, offer: map<Ref, Event>, d: set<Ref>): set<Ref>
    requires d <= offer.Keys
  {
    set x | x in d && Parse(offer[x]).Resolves? && TargetOf(offer[x]) in m :: RefOf(Recover(h, m[TargetOf(offer[x])]))
  }

  /** The replica `now` is `m` after it received exactly the events `d` of an offer. */
  ghost predicate Merged(h: Hashes, history: set<Event>, m: map<Ref, Event>, offer: map<Ref, Event>, d: set<Ref>,
      now: map<Ref, Event>) {
    && d <= offer.Keys
    && Holds(now, history)
    && (forall r :: r in m ==> r in now && now[r] == m[r])
    && (forall r :: r in d ==> r in now && now[r] == offer[r])
    && now.Keys == m.Keys + d + Copies(h, m, offer, d)
  }

  /** An offer never holds what one of its own events supersedes. */
  ghost predicate IsOffer(offer: map<Ref, Event>, history: set<Event>) {
    && Holds(offer, history)
    && forall x :: x in offer && Parse(offer[x]).Resolves? ==> TargetOf(offer[x]) !in offer
  }

  lemma VisibleIsOffer(m: map<Ref, Event>, network: Text, history: set<Event>)
    requires Holds(m, history)
    ensures IsOffer(Visible(m, network), history)
  {
    var v := Visible(m, network);
    forall x | x in v && Parse(v[x]).Resolves? ensures TargetOf(v[x]) !in v {
      assert TargetOf(m[x]) in Superseded(m);
    }
  }

  /** Two envelopes of the history under one copy's reference are the same envelope. */
  lemma CopiesAgree(h: Hashes, history: set<Event>, e: Event, f: Event)
    requires Calm(h, history) && e in history && f in history
    requires RefOf(e) == RefOf(f) && IsCopyRef(h, RefOf(e))
    ensures e == f
  {
    assert Genuine(h, e) && Genuine(h, f);
  }

  lemma CopyIsCopyRef(h: Hashes, e: Event)
    ensures IsCopyRef(h, RefOf(Recover(h, e)))
  {
  }

  lemma MergedStart(h: Hashes, history: set<Event>, m: map<Ref, Event>, offer: map<Ref, Event>)
    requires Holds(m, history)
    ensures Merged(h, history, m, offer, {}, m)
  {
  }

  /** Storing one more missing event of the offer. */
  lemma StoreStep(h: Hashes, history: set<Event>, m: map<Ref, Event>, offer: map<Ref, Event>, d: set<Ref>,
      now: map<Ref, Event>, x: Ref)
    requires Calm(h, history) && IsOffer(offer, history) && Holds(m, history)
    requires Merged(h, history, m, offer, d, now) && x in offer && x !in m
    ensures x in now ==> now[x] == offer[x]
    ensures offer[x] in history && RefOf(offer[x]) == x
    ensures var stored := now[x := offer[x]];
      && Holds(stored, history)
      && (forall r :: r in m ==> r in stored && stored[r] == m[r])
      && (forall r :: r in d + {x} ==> r in stored && stored[r] == offer[r])
      && stored.Keys == m.Keys + (d + {x}) + Copies(h, m, offer, d)
  {
    hide Calm, Genuine, Undisputed, CollisionFree;
    if x in now {
      NowAgrees(h, history, m, offer, d, now, x);
    }
  }

  lemma CopiesStep(h: Hashes, m: map<Ref, Event>, offer: map<Ref, Event>, d: set<Ref>, x: Ref)
    requires d <= offer.Keys && x in offer
    ensures Copies(h, m, offer, d + {x}) == Copies(h, m, offer, d) +
      if Parse(offer[x]).Resolves? && TargetOf(offer[x]) in m then {RefOf(Recover(h, m[TargetOf(offer[x])]))} else {}
  {
  }

  /** What a stored resolution supersedes is present exactly if it was before the session. */
  lemma TargetPresence(h: Hashes, history: set<Event>, m: map<Ref, Event>, offer: map<Ref, Event>, d: set<Ref>, x: Ref)
    requires Calm(h, history) && IsOffer(offer, history)
    requires d <= offer.Keys && x in offer && Parse(offer[x]).Resolves?
    ensures TargetOf(offer[x]) in m.Keys + (d + {x}) + Copies(h, m, offer, d) <==> TargetOf(offer[x]) in m
  {
    hide Genuine, CollisionFree;
    assert Undisputed(h, history, offer[x]);
  }

  /** Receiving one more missing event of the offer, in any order, keeps the merge exact. */
  lemma MergedStep(h: Hashes, history: set<Event>, m: map<Ref, Event>, offer: map<Ref, Event>, d: set<Ref>,
      now: map<Ref, Event>, x: Ref)
    requires Calm(h, history) && Closed(h, history) && Holds(m, history) && IsOffer(offer, history)
    requires Merged(h, history, m, offer, d, now) && x in offer && x !in m
    ensures x in now ==> now[x] == offer[x]
    ensures Merged(h, history, m, offer, d + {x}, Absorb(h, now, offer[x]))
  {
    hide Calm, Closed, Genuine, Undisputed, CollisionFree, IsOffer, Copies, Holds, IsCopyRef;
    StoreStep(h, history, m, offer, d, now, x);
    CopiesStep(h, m, offer, d, x);
    var stored := now[x := offer[x]];
    if Parse(offer[x]).Resolves? {
      TargetPresence(h, history, m, offer, d, x);
      var t := TargetOf(offer[x]);
      if t in m {
        CopyStep(h, history, m, stored, offer[x]);
      }
    }
  }

  lemma CopyStep(h: Hashes, history: set<Event>, m: map<Ref, Event>, stored: map<Ref, Event>, x: Event)
    requires Calm(h, history) && Closed(h, history) && Holds(m, history) && Holds(stored, history)
    requires x in history && Parse(x).Resolves? && TargetOf(x) in m
    ensures var copy := Recover(h, m[TargetOf(x)]);
      && Holds(stored[RefOf(copy) := copy], history)
      && (RefOf(copy) in stored ==> stored[RefOf(copy)] == copy)
  {
    var e := m[TargetOf(x)];
    var copy := Recover(h, e);
    assert Supersedes(x, e);
    CopyIsCopyRef(h, e);
    if RefOf(copy) in stored {
      CopiesAgree(h, history, stored[RefOf(copy)], copy);
    }
  }

  lemma NowAgrees(h: Hashes, history: set<Event>, m: map<Ref, Event>, offer: map<Ref, Event>, d: set<Ref>,
      now: map<Ref, Event>, x: Ref)
    requires Calm(h, history) && IsOffer(offer, history) && Holds(m, history)
    requires Merged(h, history, m, offer, d, now) && x in offer && x !in m && x in now
    ensures now[x] == offer[x]
  {
    if x !in d {
      assert x in Copies(h, m, offer, d);
      CopiesAgree(h, history, now[x], offer[x]);
    }
  }

}
