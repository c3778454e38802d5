/** The pairwise theorems about one complete synchronization session: push, then pull. */
module Session {
  import opened Bytes
  import opened Store
  import opened Replication
  import opened Replica

  /** The events of an offer that a replica does not hold. */
  ghost function Missing(offer: map<Ref, Event>, m: map<Ref, Event>): set<Ref> {
    offer.Keys - m.Keys
  }

  /** One direction: the receiver ends up with everything the sender shows. */
  ghost predicate Transfer(h: Hashes, history: set<Event>, network: Text, sender: map<Ref, Event>, m: map<Ref, Event>,
      now: map<Ref, Event>) {
    Merged(h, history, m, Visible(sender, network), Missing(Visible(sender, network), m), now)
  }

  /** A complete session between an initiator a and a responder b. */
  ghost predicate Synced(h: Hashes, history: set<Event>, network: Text,
      a: map<Ref, Event>, b: map<Ref, Event>, a': map<Ref, Event>, b': map<Ref, Event>)
  {
    && Transfer(h, history, network, a, b, b')
    && Transfer(h, history, network, b', a, a')
  }

  ghost predicate Mesh(h: Hashes, history: set<Event>, a: map<Ref, Event>, b: map<Ref, Event>) {
    Calm(h, history) && Closed(h, history) && Holds(a, history) && Holds(b, history)
  }

  /** A calm replica shows all its resolution events. */
  lemma ResolutionVisible(h: Hashes, history: set<Event>, m: map<Ref, Event>, x: Ref)
    requires Calm(h, history) && Holds(m, history) && x in m && Parse(m[x]).Resolves?
    ensures x in Visible(m, x.network)
  {
    forall y | y in m && Parse(m[y]).Resolves? ensures TargetOf(m[y]) != x {
      assert Undisputed(h, history, m[y]);
    }
  }

  /** What a merged replica holds at a copy's reference is not a resolution. */
  lemma CopyIsPlain(h: Hashes, history: set<Event>, m: map<Ref, Event>, offer: map<Ref, Event>, d: set<Ref>,
      now: map<Ref, Event>, x: Ref)
    requires Calm(h, history) && Closed(h, history) && Holds(m, history) && Holds(offer, history)
    requires Merged(h, history, m, offer, d, now) && x in Copies(h, m, offer, d)
    ensures !Parse(now[x]).Resolves?
  {
    var y :| y in d && Parse(offer[y]).Resolves? && TargetOf(offer[y]) in m
      && x == RefOf(Recover(h, m[TargetOf(offer[y])]));
    var original := m[TargetOf(offer[y])];
    assert Undisputed(h, history, offer[y]) && Undisputed(h, history, original);
    assert Supersedes(offer[y], original);
    CopyIsCopyRef(h, original);
    CopiesAgree(h, history, now[x], Recover(h, original));
  }

  /** A transfer unites what the two replicas know to be superseded. */
  lemma TransferSuperseded(h: Hashes, history: set<Event>, network: Text, sender: map<Ref, Event>, m: map<Ref, Event>,
      now: map<Ref, Event>, r: Ref)
    requires Mesh(h, history, sender, m) && Transfer(h, history, network, sender, m, now) && r.network == network
    ensures r in Superseded(now) <==> r in Superseded(sender) || r in Superseded(m)
  {
    var offer := Visible(sender, network);
    var d := Missing(offer, m);
    if r in Superseded(now) {
      var x :| x in now && Parse(now[x]).Resolves? && TargetOf(now[x]) == r;
      if x !in m && x !in d {
        CopyIsPlain(h, history, m, offer, d, now, x);
      }
    }
    if r in Superseded(m) {
      var x :| x in m && Parse(m[x]).Resolves? && TargetOf(m[x]) == r;
      assert now[x] == m[x];
    }
    if r in Superseded(sender) {
      var x :| x in sender && Parse(sender[x]).Resolves? && TargetOf(sender[x]) == r;
      ResolutionVisible(h, history, sender, x);
      assert x in offer && offer[x] == sender[x];
      assert Undisputed(h, history, sender[x]);
      assert now[x] == sender[x];
    }
  }

  lemma TransferHolds(h: Hashes, history: set<Event>, network: Text, sender: map<Ref, Event>, m: map<Ref, Event>,
      now: map<Ref, Event>)
    requires Mesh(h, history, sender, m) && Transfer(h, history, network, sender, m, now)
    ensures Mesh(h, history, sender, now) && Mesh(h, history, now, now)
  {
  }

  /** After a session both replicas hide the same references of the network: the union of what
      either of them hid. */
  lemma SupersededAgree(h: Hashes, history: set<Event>, network: Text,
      a: map<Ref, Event>, b: map<Ref, Event>, a': map<Ref, Event>, b': map<Ref, Event>, r: Ref)
    requires Mesh(h, history, a, b) && Synced(h, history, network, a, b, a', b') && r.network == network
    ensures r in Superseded(b') <==> r in Superseded(a) || r in Superseded(b)
    ensures r in Superseded(a') <==> r in Superseded(b')
  {
    hide Calm, Closed, Holds, Merged, Transfer, Superseded;
    TransferSuperseded(h, history, network, a, b, b', r);
    TransferHolds(h, history, network, a, b, b');
    MeshPair(h, history, a, b');
    TransferSuperseded(h, history, network, b', a, a', r);
  }

  lemma MeshPair(h: Hashes, history: set<Event>, a: map<Ref, Event>, b: map<Ref, Event>)
    requires Mesh(h, history, a, b)
    ensures Mesh(h, history, b, a)
  {
  }

  /** The copies that the initiator makes of its own variants in the pull. */
  ghost function PullCopies(h: Hashes, network: Text, a: map<Ref, Event>, b': map<Ref, Event>): set<Ref> {
    var offer := Visible(b', network);
    Copies(h, a, offer, Missing(offer, a))
  }

  /** After a session the replicas show the same references of the network if and only if the responder
      has every copy that the initiator made in the pull. */
  lemma VisibleAgreeIffCopied(h: Hashes, history: set<Event>, network: Text,
      a: map<Ref, Event>, b: map<Ref, Event>, a': map<Ref, Event>, b': map<Ref, Event>)
    requires Mesh(h, history, a, b) && Synced(h, history, network, a, b, a', b')
    ensures Visible(b', network).Keys <= Visible(a', network).Keys
    ensures Visible(a', network).Keys == Visible(b', network).Keys <==> PullCopies(h, network, a, b') <= b'.Keys
  {
    forall r: Ref | r.network == network ensures r in Superseded(a') <==> r in Superseded(b') {
      SupersededAgree(h, history, network, a, b, a', b', r);
    }
    forall r: Ref | r.network == network && r in Superseded(a) ensures r in Superseded(b') {
      SupersededAgree(h, history, network, a, b, a', b', r);
    }
    VisibleOneWay(h, history, network, a, b, a', b');
    forall r | r in Visible(a', network) && r !in Visible(b', network)
      ensures r in PullCopies(h, network, a, b') && r !in b'
    {
      OnlyCopiesDiffer(h, history, network, a, b, a', b', r);
    }
    forall r | r in PullCopies(h, network, a, b') && r !in b'
      ensures r in Visible(a', network) && r !in Visible(b', network)
    {
      CopyShown(h, history, network, a, a', b', r);
    }
  }

  lemma VisibleOneWay(h: Hashes, history: set<Event>, network: Text,
      a: map<Ref, Event>, b: map<Ref, Event>, a': map<Ref, Event>, b': map<Ref, Event>)
    requires Synced(h, history, network, a, b, a', b')
    requires forall r: Ref :: r.network == network ==> (r in Superseded(a') <==> r in Superseded(b'))
    ensures Visible(b', network).Keys <= Visible(a', network).Keys
  {
    hide Copies, Superseded;
  }

  lemma OnlyCopiesDiffer(h: Hashes, history: set<Event>, network: Text,
      a: map<Ref, Event>, b: map<Ref, Event>, a': map<Ref, Event>, b': map<Ref, Event>, r: Ref)
    requires Synced(h, history, network, a, b, a', b')
    requires forall s: Ref :: s.network == network ==> (s in Superseded(a') <==> s in Superseded(b'))
    requires forall s: Ref :: s.network == network && s in Superseded(a) ==> s in Superseded(b')
    requires r in Visible(a', network) && r !in Visible(b', network)
    ensures r in PullCopies(h, network, a, b') && r !in b'
  {
    hide Copies, Superseded;
    assert r in a ==> r in Visible(a, network);
  }

  lemma CopyShown(h: Hashes, history: set<Event>, network: Text, a: map<Ref, Event>, a': map<Ref, Event>,
      b': map<Ref, Event>, r: Ref)
    requires Mesh(h, history, a, b') && Transfer(h, history, network, b', a, a')
    requires r in PullCopies(h, network, a, b') && r !in b'
    ensures r in Visible(a', network)
  {
    var offer := Visible(b', network);
    var y :| y in Missing(offer, a) && Parse(offer[y]).Resolves?
      && TargetOf(offer[y]) in a && r == RefOf(Recover(h, a[TargetOf(offer[y])]));
    CopyIsCopyRef(h, a[TargetOf(offer[y])]);
    forall x | x in a' && Parse(a'[x]).Resolves? ensures TargetOf(a'[x]) != r {
      assert Undisputed(h, history, a'[x]);
    }
  }

  ghost predicate IsResolutionAt(m: map<Ref, Event>, x: Ref) {
    x in m && Parse(m[x]).Resolves?
  }

  /** A transfer gives the receiver exactly the resolution events that either replica held. */
  lemma TransferResolutions(h: Hashes, history: set<Event>, network: Text, sender: map<Ref, Event>, m: map<Ref, Event>,
      now: map<Ref, Event>, x: Ref)
    requires Mesh(h, history, sender, m) && Transfer(h, history, network, sender, m, now) && x.network == network
    ensures IsResolutionAt(now, x) <==> IsResolutionAt(sender, x) || IsResolutionAt(m, x)
  {
    var offer := Visible(sender, network);
    var d := Missing(offer, m);
    if IsResolutionAt(now, x) && x !in m && x !in d {
      CopyIsPlain(h, history, m, offer, d, now, x);
    }
    if IsResolutionAt(sender, x) {
      ResolutionVisible(h, history, sender, x);
      assert Undisputed(h, history, sender[x]);
      assert x in offer && offer[x] == sender[x];
    }
  }

  /** Whether the copy that the initiator a makes, once the pull brings it the responder's resolution x,
      is at the responder by then: one of the two holds it already, or the responder holds the same
      variant and the push brings it a resolution of it. */
  ghost predicate CopyReaches(h: Hashes, a: map<Ref, Event>, b: map<Ref, Event>, x: Ref)
    requires x in b && Parse(b[x]).Resolves? && TargetOf(b[x]) in a
  {
    var t := TargetOf(b[x]);
    var copy := RefOf(Recover(h, a[t]));
    || copy in b || copy in a
    || (&& t in b && b[t] == a[t]
        && exists y :: y in a && y !in b && Parse(a[y]).Resolves? && TargetOf(a[y]) == t)
  }

  /** A resolution of the responder that is news to the initiator, and about one of its own variants. */
  ghost predicate NewResolution(network: Text, a: map<Ref, Event>, b: map<Ref, Event>, x: Ref) {
    x in b && x.network == network && Parse(b[x]).Resolves? && x !in a && TargetOf(b[x]) in a
  }

  lemma CopyVisible(h: Hashes, history: set<Event>, network: Text, m: map<Ref, Event>, e: Event)
    requires Calm(h, history) && Holds(m, history) && e.network == network && RefOf(Recover(h, e)) in m
    ensures RefOf(Recover(h, e)) in Visible(m, network)
  {
    CopyIsCopyRef(h, e);
    forall x | x in m && Parse(m[x]).Resolves? ensures TargetOf(m[x]) != RefOf(Recover(h, e)) {
      assert Undisputed(h, history, m[x]);
    }
  }

  /** Before the session it is decided whether the responder has that copy after the push. */
  lemma CopyReachesIff(h: Hashes, history: set<Event>, network: Text, a: map<Ref, Event>, b: map<Ref, Event>,
      b': map<Ref, Event>, x: Ref)
    requires Mesh(h, history, a, b) && Transfer(h, history, network, a, b, b') && NewResolution(network, a, b, x)
    ensures RefOf(Recover(h, a[TargetOf(b[x])])) in b' <==> CopyReaches(h, a, b, x)
  {
    hide Calm, Closed;
    var t := TargetOf(b[x]);
    var copy := RefOf(Recover(h, a[t]));
    var offer := Visible(a, network);
    var d := Missing(offer, b);
    if copy in a {
      CopyVisible(h, history, network, a, a[t]);
    }
    if copy in Copies(h, b, offer, d) {
      var y :| y in d && Parse(offer[y]).Resolves? && TargetOf(offer[y]) in b
        && copy == RefOf(Recover(h, b[TargetOf(offer[y])]));
      MeshCollisionFree(h, history, a, b);
      RecoverInjective(h, a[t], b[TargetOf(offer[y])]);
      assert y in a && y !in b && Parse(a[y]).Resolves? && TargetOf(a[y]) == t;
    }
    if y :| y in a && y !in b && Parse(a[y]).Resolves? && TargetOf(a[y]) == t {
      ResolutionVisible(h, history, a, y);
      assert y in d && offer[y] == a[y];
    }
  }

  lemma MeshCollisionFree(h: Hashes, history: set<Event>, a: map<Ref, Event>, b: map<Ref, Event>)
    requires Mesh(h, history, a, b)
    ensures CollisionFree(h)
  {
  }

  /** The resolutions that the pull brings are those that were news before the session. */
  lemma PulledResolution(h: Hashes, history: set<Event>, network: Text, a: map<Ref, Event>, b: map<Ref, Event>,
      b': map<Ref, Event>, x: Ref)
    requires Mesh(h, history, a, b) && Transfer(h, history, network, a, b, b')
    ensures NewResolution(network, a, b, x) <==>
      x in Missing(Visible(b', network), a) && Parse(b'[x]).Resolves? && TargetOf(b'[x]) in a
    ensures NewResolution(network, a, b, x) ==> b'[x] == b[x]
  {
    hide Calm, Closed, Copies, Superseded;
    if x in Missing(Visible(b', network), a) && Parse(b'[x]).Resolves? {
      TransferResolutions(h, history, network, a, b, b', x);
    }
    if NewResolution(network, a, b, x) {
      TransferHolds(h, history, network, a, b, b');
      ResolutionVisible(h, history, b', x);
    }
  }

  /** After a session both replicas show the same references of the network if and only if, for every
      resolution that is news to the initiator, the copy it calls for reaches the responder: a
      condition on the two replicas as they were before. */
  lemma VisibleAgreeIff(h: Hashes, history: set<Event>, network: Text,
      a: map<Ref, Event>, b: map<Ref, Event>, a': map<Ref, Event>, b': map<Ref, Event>)
    requires Mesh(h, history, a, b) && Synced(h, history, network, a, b, a', b')
    ensures Visible(b', network).Keys <= Visible(a', network).Keys
    ensures Visible(a', network).Keys == Visible(b', network).Keys <==>
      forall x :: NewResolution(network, a, b, x) ==> CopyReaches(h, a, b, x)
  {
    VisibleAgreeIffCopied(h, history, network, a, b, a', b');
    forall x: Ref
      ensures NewResolution(network, a, b, x) <==>
        x in Missing(Visible(b', network), a) && Parse(b'[x]).Resolves? && TargetOf(b'[x]) in a
      ensures NewResolution(network, a, b, x) ==> b'[x] == b[x]
      ensures NewResolution(network, a, b, x) ==>
        (RefOf(Recover(h, a[TargetOf(b[x])])) in b' <==> CopyReaches(h, a, b, x))
    {
      PulledResolution(h, history, network, a, b, b', x);
      if NewResolution(network, a, b, x) {
        CopyReachesIff(h, history, network, a, b, b', x);
      }
    }
    PullCopiesReach(h, network, a, b, b');
  }

  lemma PullCopiesReach(h: Hashes, network: Text, a: map<Ref, Event>, b: map<Ref, Event>, b': map<Ref, Event>)
    requires forall x :: NewResolution(network, a, b, x) <==>
      x in Missing(Visible(b', network), a) && Parse(b'[x]).Resolves? && TargetOf(b'[x]) in a
    requires forall x :: NewResolution(network, a, b, x) ==> b'[x] == b[x]
    ensures PullCopies(h, network, a, b') <= b'.Keys <==>
      forall x :: NewResolution(network, a, b, x) ==> RefOf(Recover(h, a[TargetOf(b[x])])) in b'
  {
    hide Superseded;
    forall x | NewResolution(network, a, b, x)
      ensures RefOf(Recover(h, a[TargetOf(b[x])])) in PullCopies(h, network, a, b')
    {
      assert Visible(b', network)[x] == b'[x];
    }
  }

  /** An initiator that holds all the resolutions of the responder shows what the responder shows. */
  lemma VisibleAgree(h: Hashes, history: set<Event>, network: Text,
      a: map<Ref, Event>, b: map<Ref, Event>, a': map<Ref, Event>, b': map<Ref, Event>)
    requires Mesh(h, history, a, b) && Synced(h, history, network, a, b, a', b')
    requires forall x :: x in b && x.network == network && Parse(b[x]).Resolves? ==> x in a
    ensures Visible(a', network).Keys == Visible(b', network).Keys
  {
    VisibleAgreeIff(h, history, network, a, b, a', b');
  }

  lemma ResolutionsAgree(h: Hashes, history: set<Event>, network: Text,
      a: map<Ref, Event>, b: map<Ref, Event>, a': map<Ref, Event>, b': map<Ref, Event>, x: Ref)
    requires Mesh(h, history, a, b) && Synced(h, history, network, a, b, a', b') && x.network == network
    ensures IsResolutionAt(a', x) <==> IsResolutionAt(b', x)
    ensures Mesh(h, history, a', b') && Mesh(h, history, b', a')
  {
    hide Calm, Closed, Holds, Merged, Transfer, IsResolutionAt;
    TransferHolds(h, history, network, a, b, b');
    MeshPair(h, history, a, b');
    TransferHolds(h, history, network, b', a, a');
    TransferResolutions(h, history, network, a, b, b', x);
    TransferResolutions(h, history, network, b', a, a', x);
    MeshBoth(h, history, a', b');
  }

  lemma MeshBoth(h: Hashes, history: set<Event>, a: map<Ref, Event>, b: map<Ref, Event>)
    requires Mesh(h, history, a, a) && Mesh(h, history, b, b)
    ensures Mesh(h, history, a, b) && Mesh(h, history, b, a)
  {
  }

  /** Replicas with the same resolution events show the same references after one session,
      whichever of them starts it. */
  lemma SameResolutionsSuffice(h: Hashes, history: set<Event>, network: Text,
      p: map<Ref, Event>, q: map<Ref, Event>, p': map<Ref, Event>, q': map<Ref, Event>)
    requires Mesh(h, history, p, q) && Synced(h, history, network, p, q, p', q')
    requires forall x: Ref :: x.network == network ==> (IsResolutionAt(p, x) <==> IsResolutionAt(q, x))
    ensures Visible(p', network).Keys == Visible(q', network).Keys
  {
    forall x | x in q && x.network == network && Parse(q[x]).Resolves? ensures x in p {
      assert IsResolutionAt(q, x);
    }
    VisibleAgree(h, history, network, p, q, p', q');
  }

  /** Two sessions always suffice, and either replica may start the second one. */
  lemma TwoSessionsSuffice(h: Hashes, history: set<Event>, network: Text,
      a: map<Ref, Event>, b: map<Ref, Event>, a': map<Ref, Event>, b': map<Ref, Event>,
      a'': map<Ref, Event>, b'': map<Ref, Event>)
    requires Mesh(h, history, a, b) && Synced(h, history, network, a, b, a', b')
    requires Synced(h, history, network, a', b', a'', b'') || Synced(h, history, network, b', a', b'', a'')
    ensures Visible(a'', network).Keys == Visible(b'', network).Keys
  {
    hide Calm, Closed, Holds, Merged, Transfer, IsResolutionAt, Visible, Synced, Mesh;
    ResolutionsAgree(h, history, network, a, b, a', b', Ref(network, []));
    forall x: Ref | x.network == network ensures IsResolutionAt(a', x) <==> IsResolutionAt(b', x) {
      ResolutionsAgree(h, history, network, a, b, a', b', x);
    }
    if Synced(h, history, network, a', b', a'', b'') {
      SameResolutionsSuffice(h, history, network, a', b', a'', b'');
    } else {
      SameResolutionsSuffice(h, history, network, b', a', b'', a'');
    }
  }

  /** Two variants y and z of one ID and a resolution x of it. */
  ghost predicate Collision(h: Hashes, x: Event, y: Event, z: Event) {
    && CollisionFree(h)
    && Parse(x).Resolves? && Parse(y).Plain? && Parse(z).Plain?
    && TargetOf(x) == RefOf(y) == RefOf(z) && y != z && RefOf(x) != RefOf(y)
    && !IsCopyRef(h, RefOf(x)) && !IsCopyRef(h, RefOf(y))
  }

  ghost function CollisionHistory(h: Hashes, x: Event, y: Event, z: Event): set<Event> {
    {x, y, z, Recover(h, y), Recover(h, z)}
  }

  lemma CollisionIsCalm(h: Hashes, x: Event, y: Event, z: Event)
    requires Collision(h, x, y, z)
    ensures Calm(h, CollisionHistory(h, x, y, z)) && Closed(h, CollisionHistory(h, x, y, z))
    ensures RefOf(Recover(h, y)) != RefOf(Recover(h, z))
    ensures RefOf(Recover(h, y)) !in {RefOf(x), RefOf(y)} && RefOf(Recover(h, z)) !in {RefOf(x), RefOf(y)}
  {
    CopyIsCopyRef(h, y);
    CopyIsCopyRef(h, z);
    CollisionIsGenuine(h, x, y, z);
    hide Genuine, CollisionFree;
    forall e | e in CollisionHistory(h, x, y, z) ensures Undisputed(h, CollisionHistory(h, x, y, z), e) {
    }
  }

  lemma CollisionIsGenuine(h: Hashes, x: Event, y: Event, z: Event)
    requires Collision(h, x, y, z)
    ensures forall e {:trigger Genuine(h, e)} :: e in CollisionHistory(h, x, y, z) ==> Genuine(h, e)
    ensures RefOf(Recover(h, y)) != RefOf(Recover(h, z))
  {
    CopyIsCopyRef(h, y);
    CopyIsCopyRef(h, z);
    var history := CollisionHistory(h, x, y, z);
    forall e | e in history ensures Genuine(h, e) {
      if e == Recover(h, y) || e == Recover(h, z) {
        var origin := if e == Recover(h, y) then y else z;
        forall f: Event | RefOf(Recover(h, f)) == RefOf(e) ensures e == Recover(h, f) {
          RecoverInjective(h, f, origin);
        }
      }
    }
  }

  ghost function ExampleA(y: Event): map<Ref, Event> {
    map[RefOf(y) := y]
  }

  ghost function ExampleB(h: Hashes, x: Event, z: Event): map<Ref, Event> {
    map[RefOf(z) := z, RefOf(x) := x, RefOf(Recover(h, z)) := Recover(h, z)]
  }

  lemma ExampleViews(h: Hashes, x: Event, y: Event, z: Event)
    requires Collision(h, x, y, z)
    ensures Superseded(ExampleA(y)) == {} && Superseded(ExampleB(h, x, z)) == {RefOf(y)}
    ensures Visible(ExampleA(y), y.network) == ExampleA(y)
    ensures Visible(ExampleB(h, x, z), y.network) == map[RefOf(x) := x, RefOf(Recover(h, z)) := Recover(h, z)]
  {
    CollisionIsCalm(h, x, y, z);
    hide Calm, Closed, CollisionFree, IsCopyRef;
    var b := ExampleB(h, x, z);
    assert b[RefOf(x)] == x && b[RefOf(z)] == z && b[RefOf(Recover(h, z))] == Recover(h, z);
  }

  /** The initiator after it received the responder's copy and then the resolution. */
  ghost function ExampleAfter(h: Hashes, x: Event, y: Event, z: Event): map<Ref, Event> {
    Absorb(h, Absorb(h, ExampleA(y), Recover(h, z)), x)
  }

  lemma ExampleMesh(h: Hashes, x: Event, y: Event, z: Event)
    requires Collision(h, x, y, z)
    ensures Mesh(h, CollisionHistory(h, x, y, z), ExampleA(y), ExampleB(h, x, z))
  {
    CollisionIsCalm(h, x, y, z);
    hide Calm, Closed, CollisionFree, IsCopyRef;
  }

  lemma ExampleSynced(h: Hashes, x: Event, y: Event, z: Event)
    requires Collision(h, x, y, z)
    ensures var history := CollisionHistory(h, x, y, z);
      Synced(h, history, y.network, ExampleA(y), ExampleB(h, x, z), ExampleAfter(h, x, y, z), ExampleB(h, x, z))
  {
    var history := CollisionHistory(h, x, y, z);
    var a, b := ExampleA(y), ExampleB(h, x, z);
    var offer := Visible(b, y.network);
    ExampleMesh(h, x, y, z);
    ExampleViews(h, x, y, z);
    CollisionIsCalm(h, x, y, z);
    VisibleIsOffer(b, y.network, history);
    hide Calm, Closed, CollisionFree, IsCopyRef, Superseded, Visible, Merged, Absorb, IsOffer;
    MergedStart(h, history, b, a);
    assert Missing(a, b) == {};
    MergedStart(h, history, a, offer);
    MergedStep(h, history, a, offer, {}, a, RefOf(Recover(h, z)));
    MergedStep(h, history, a, offer, {} + {RefOf(Recover(h, z))}, Absorb(h, a, Recover(h, z)), RefOf(x));
    assert Missing(offer, a) == {} + {RefOf(Recover(h, z))} + {RefOf(x)};
  }

  /** The resolution is news to the initiator, and the copy it then makes reaches nobody. */
  lemma ExampleDoesNotReach(h: Hashes, x: Event, y: Event, z: Event)
    requires Collision(h, x, y, z)
    ensures NewResolution(y.network, ExampleA(y), ExampleB(h, x, z), RefOf(x))
    ensures !CopyReaches(h, ExampleA(y), ExampleB(h, x, z), RefOf(x))
  {
    CollisionIsCalm(h, x, y, z);
    assert ExampleB(h, x, z)[RefOf(x)] == x;
  }

  /** One session is not enough in general: the initiator's own variant of an ID that the pull
      resolves is copied after the push. */
  lemma OneSessionIsNotEnough(h: Hashes, x: Event, y: Event, z: Event)
    requires Collision(h, x, y, z)
    ensures var history := CollisionHistory(h, x, y, z);
      && Mesh(h, history, ExampleA(y), ExampleB(h, x, z))
      && Synced(h, history, y.network, ExampleA(y), ExampleB(h, x, z), ExampleAfter(h, x, y, z), ExampleB(h, x, z))
      && Visible(ExampleAfter(h, x, y, z), y.network).Keys != Visible(ExampleB(h, x, z), y.network).Keys
  {
    hide Mesh, Synced, Visible, CopyReaches, NewResolution, CollisionFree, Collision;
    var history := CollisionHistory(h, x, y, z);
    ExampleMesh(h, x, y, z);
    ExampleSynced(h, x, y, z);
    ExampleDoesNotReach(h, x, y, z);
    VisibleAgreeIff(h, history, y.network, ExampleA(y), ExampleB(h, x, z), ExampleAfter(h, x, y, z), ExampleB(h, x, z));
  }

  /****** Conflicts ******/

  /** The references one inventory comparison reports: offered and held, with different digests. */
  ghost function Conflicts(offer: map<Ref, Event>, m: map<Ref, Event>): set<Ref> {
    set r | r in offer && r in m && offer[r] != m[r]
  }

  /** A session's reported conflicts are real, and every reference that both replicas show
      afterwards with different envelopes is among those of the pull. */
  lemma ConflictsExact(h: Hashes, history: set<Event>, network: Text,
      a: map<Ref, Event>, b: map<Ref, Event>, a': map<Ref, Event>, b': map<Ref, Event>, r: Ref)
    requires Mesh(h, history, a, b) && Synced(h, history, network, a, b, a', b')
    ensures r in Conflicts(Visible(a, network), b) || r in Conflicts(Visible(b', network), a) ==>
      r in a' && r in b' && a'[r] != b'[r]
    ensures r in Visible(a', network) && r in Visible(b', network) && a'[r] != b'[r] ==>
      r in Conflicts(Visible(b', network), a)
  {
    hide Calm, Closed, Copies, Superseded;
  }

  /****** Sessions that move nothing ******/

  /** A session moves nothing if neither side asks for an event. */
  ghost predicate Idle(network: Text, a: map<Ref, Event>, b: map<Ref, Event>) {
    Missing(Visible(a, network), b) == {} && Missing(Visible(b, network), a) == {}
  }

  /** An idle session leaves both replicas as they were, and they show and hide the same
      references. */
  lemma IdleMeansAgreed(h: Hashes, history: set<Event>, network: Text, a: map<Ref, Event>, b: map<Ref, Event>)
    requires Mesh(h, history, a, b) && Idle(network, a, b)
    ensures Synced(h, history, network, a, b, a, b)
    ensures Visible(a, network).Keys == Visible(b, network).Keys
    ensures forall r: Ref :: r.network == network ==> (r in Superseded(a) <==> r in Superseded(b))
  {
    assert Copies(h, b, Visible(a, network), {}) == {} && Copies(h, a, Visible(b, network), {}) == {};
    forall r: Ref | r.network == network ensures r in Superseded(a) <==> r in Superseded(b) {
      SupersededAgree(h, history, network, a, b, a, b, r);
    }
    forall x | x in b && x.network == network && Parse(b[x]).Resolves? ensures x in a {
      ResolutionVisible(h, history, b, x);
    }
    VisibleAgree(h, history, network, a, b, a, b);
  }

  /** b holds, under y, a resolution of an ID that a still shows. */
  ghost predicate Unmatched(a: map<Ref, Event>, b: map<Ref, Event>, y: Ref) {
    y in b && Parse(b[y]).Resolves? && TargetOf(b[y]) in a && TargetOf(b[y]) !in Superseded(a)
  }

  /** Without the hypothesis that IDs of resolutions are not reused: two replicas between which nothing
      moves show the same references if and only if no resolution of the one is about something that
      the other still shows. Unless such a resolution is superseded itself, its ID has been reused at
      the other replica, and the conflict on it is reported. So a reused ID does no harm exactly when
      another resolution hides the same event there, or the event is not held. */
  lemma IdleAgreesIff(history: set<Event>, network: Text, a: map<Ref, Event>, b: map<Ref, Event>)
    requires Holds(a, history) && Holds(b, history) && Idle(network, a, b)
    ensures Visible(a, network).Keys == Visible(b, network).Keys <==>
      forall y: Ref :: y.network == network ==> !Unmatched(a, b, y) && !Unmatched(b, a, y)
    ensures forall y: Ref :: Unmatched(a, b, y) && y in Visible(b, network) ==>
      y in a && a[y] != b[y] && y in Conflicts(Visible(b, network), a)
  {
    IdleShownIff(history, network, a, b);
    IdleShownIff(history, network, b, a);
    forall y: Ref | Unmatched(a, b, y) && y in Visible(b, network) ensures y in a && a[y] != b[y] {
      assert y !in Missing(Visible(b, network), a);
    }
  }

  lemma IdleShownIff(history: set<Event>, network: Text, a: map<Ref, Event>, b: map<Ref, Event>)
    requires Holds(a, history) && Holds(b, history) && Missing(Visible(a, network), b) == {}
    ensures Visible(a, network).Keys <= Visible(b, network).Keys <==>
      forall y: Ref :: y.network == network ==> !Unmatched(a, b, y)
  {
    forall r | r in Visible(a, network) ensures r in b {
      assert r !in Missing(Visible(a, network), b);
    }
    if r :| r in Visible(a, network) && r !in Visible(b, network) {
      var y :| y in b && Parse(b[y]).Resolves? && TargetOf(b[y]) == r;
      assert y.network == network && Unmatched(a, b, y);
    }
    if y: Ref :| y.network == network && Unmatched(a, b, y) {
      assert TargetOf(b[y]) in Visible(a, network);
      assert TargetOf(b[y]) in Superseded(b);
    }
  }

  /** Why resolution IDs must not be reused: if a producer named the ID of a resolution x for its own
      event y, two replicas that hold one of them each, and everything else alike, have nothing left
      to exchange and still show different references; the conflict on the ID is reported. */
  lemma ReusedResolutionIdBlocks(h: Hashes, x: Event, y: Event, e: Event)
    requires Parse(x).Resolves? && Parse(y).Plain? && Parse(e).Plain? && RefOf(x) == RefOf(y) && x != y
    requires TargetOf(x) == RefOf(e) && RefOf(e) != RefOf(x) && RefOf(Recover(h, e)) !in {RefOf(x), RefOf(e)}
    ensures var copy := Recover(h, e);
      var a := map[RefOf(e) := e, RefOf(copy) := copy, RefOf(x) := x];
      var b := map[RefOf(e) := e, RefOf(copy) := copy, RefOf(y) := y];
      && Idle(x.network, a, b)
      && RefOf(e) in Visible(b, x.network) && RefOf(e) !in Visible(a, x.network)
      && RefOf(x) in Conflicts(Visible(a, x.network), b)
  {
    var copy := Recover(h, e);
    var a := map[RefOf(e) := e, RefOf(copy) := copy, RefOf(x) := x];
    var b := map[RefOf(e) := e, RefOf(copy) := copy, RefOf(y) := y];
    assert Parse(copy).Plain?;
    assert a[RefOf(x)] == x && b[RefOf(y)] == y;
    assert Superseded(b) == {};
    assert Superseded(a) == {RefOf(e)};
  }
}
