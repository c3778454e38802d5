/** Convergence of any number of replicas once ingestion and new resolutions have stopped. */
module Convergence {
  import opened Bytes
  import opened Finite
  import opened Store
  import opened Replication
  import opened Replica
  import opened Session

  type Replicas = seq<map<Ref, Event>>

  ghost predicate AllHold(ms: Replicas, history: set<Event>) {
    forall i {:trigger Holds(ms[i], history)} :: 0 <= i < |ms| ==> Holds(ms[i], history)
  }

  /** A mesh in which no new event or resolution appears. */
  ghost predicate Quiescent(h: Hashes, history: set<Event>, ms: Replicas) {
    Calm(h, history) && Closed(h, history) && AllHold(ms, history)
  }

  /** One session of the mesh: complete, or cut off anywhere, in which case each of the two
      replicas has received some of the history and lost nothing. */
  ghost predicate MeshStep(h: Hashes, history: set<Event>, network: Text, ms: Replicas, i: nat, j: nat, ms': Replicas) {
    && |ms'| == |ms| && i < |ms| && j < |ms| && i != j
    && (forall k :: 0 <= k < |ms| && k != i && k != j ==> ms'[k] == ms[k])
    && (Complete(h, history, network, ms, i, j, ms') || CutOff(history, ms, i, j, ms'))
  }

  ghost predicate Complete(h: Hashes, history: set<Event>, network: Text, ms: Replicas, i: nat, j: nat, ms': Replicas)
    requires |ms'| == |ms| && i < |ms| && j < |ms|
  {
    Synced(h, history, network, ms[i], ms[j], ms'[i], ms'[j])
  }

  ghost predicate CutOff(history: set<Event>, ms: Replicas, i: nat, j: nat, ms': Replicas)
    requires |ms'| == |ms| && i < |ms| && j < |ms|
  {
    Grows(ms[i], ms'[i], history) && Grows(ms[j], ms'[j], history)
  }

  ghost predicate Grows(m: map<Ref, Event>, m': map<Ref, Event>, history: set<Event>) {
    Holds(m', history) && forall r :: r in m ==> r in m' && m'[r] == m[r]
  }

  /****** The measure: envelopes or copies that some node still lacks ******/

  ghost function Refs(history: set<Event>): set<Ref> {
    set e | e in history :: RefOf(e)
  }

  ghost function Lacking(m: map<Ref, Event>, history: set<Event>): nat {
    |Refs(history) - m.Keys|
  }

  ghost function TotalLacking(ms: Replicas, history: set<Event>): nat {
    if ms == [] then 0 else Lacking(ms[0], history) + TotalLacking(ms[1..], history)
  }

  lemma LackingShrinks(m: map<Ref, Event>, m': map<Ref, Event>, history: set<Event>)
    requires Grows(m, m', history)
    ensures Lacking(m', history) <= Lacking(m, history)
    ensures m'.Keys != m.Keys ==> Lacking(m', history) < Lacking(m, history)
  {
    var before, after := Refs(history) - m.Keys, Refs(history) - m'.Keys;
    assert after <= before;
    if m'.Keys != m.Keys {
      var r :| r in m' && r !in m;
      assert r in before && r !in after;
      assert after <= before - {r};
      SubsetIsSmaller(after, before - {r});
    } else {
      SubsetIsSmaller(after, before);
    }
  }

  lemma {:induction false} TotalShrinks(ms: Replicas, ms': Replicas, history: set<Event>)
    requires |ms'| == |ms|
    requires forall k :: 0 <= k < |ms| ==> Grows(ms[k], ms'[k], history)
    ensures TotalLacking(ms', history) <= TotalLacking(ms, history)
    ensures (exists k :: 0 <= k < |ms| && ms'[k].Keys != ms[k].Keys) ==>
      TotalLacking(ms', history) < TotalLacking(ms, history)
  {
    if ms != [] {
      LackingShrinks(ms[0], ms'[0], history);
      TotalShrinks(ms[1..], ms'[1..], history);
      if k :| 0 <= k < |ms| && ms'[k].Keys != ms[k].Keys {
        if k > 0 {
          assert ms'[1..][k - 1].Keys != ms[1..][k - 1].Keys;
        }
      }
    }
  }

  lemma TransferGrows(h: Hashes, history: set<Event>, network: Text, sender: map<Ref, Event>, m: map<Ref, Event>,
      now: map<Ref, Event>)
    requires Transfer(h, history, network, sender, m, now)
    ensures Grows(m, now, history)
    ensures Missing(Visible(sender, network), m) != {} ==> now.Keys != m.Keys
    ensures Missing(Visible(sender, network), m) == {} && Holds(m, history) ==> now == m
  {
    var d := Missing(Visible(sender, network), m);
    if r :| r in d {
      assert r in now && r !in m;
    } else {
      assert Copies(h, m, Visible(sender, network), d) == {};
    }
  }

  /** Every session keeps the mesh quiescent and never adds to what is lacking; a complete session
      that is not idle strictly lowers it, and one that is idle changes nothing. */
  lemma SessionProgress(h: Hashes, history: set<Event>, network: Text, ms: Replicas, i: nat, j: nat, ms': Replicas)
    requires Quiescent(h, history, ms) && MeshStep(h, history, network, ms, i, j, ms')
    ensures Quiescent(h, history, ms')
    ensures TotalLacking(ms', history) <= TotalLacking(ms, history)
    ensures Complete(h, history, network, ms, i, j, ms') && !Idle(network, ms[i], ms[j]) ==>
      TotalLacking(ms', history) < TotalLacking(ms, history)
    ensures Complete(h, history, network, ms, i, j, ms') && Idle(network, ms[i], ms[j]) ==> ms' == ms
  {
    hide Calm, Closed, Merged, Visible, Copies, Lacking;
    assert Holds(ms[i], history) && Holds(ms[j], history);
    if Complete(h, history, network, ms, i, j, ms') {
      hide Transfer;
      TransferGrows(h, history, network, ms[i], ms[j], ms'[j]);
      TransferGrows(h, history, network, ms'[j], ms[i], ms'[i]);
      if Idle(network, ms[i], ms[j]) {
        assert forall k :: 0 <= k < |ms| ==> ms'[k] == ms[k];
      }
    }
    forall k | 0 <= k < |ms| ensures Grows(ms[k], ms'[k], history) {
      assert Holds(ms[k], history);
    }
    TotalShrinks(ms, ms', history);
    assert AllHold(ms', history);
  }

  /** A run of sessions between chosen pairs. */
  ghost predicate MeshRun(h: Hashes, history: set<Event>,
    network: Text, states: seq<Replicas>, pairs: seq<(nat, nat)>) {
    && |states| == |pairs| + 1
    && forall k {:trigger states[k]} :: 0 <= k < |pairs| ==>
      MeshStep(h, history, network, states[k], pairs[k].0, pairs[k].1, states[k + 1])
  }

  /** How many sessions of a run are complete and move something. */
  ghost function Productive(h: Hashes, history: set<Event>, network: Text, states: seq<Replicas>,
      pairs: seq<(nat, nat)>): nat
    requires MeshRun(h, history, network, states, pairs)
  {
    if pairs == [] then 0
    else
      var i, j := pairs[0].0, pairs[0].1;
      assert MeshStep(h, history, network, states[0], i, j, states[1]);
      assert MeshRun(h, history, network, states[1..], pairs[1..]) by { RunTail(h, history, network, states, pairs); }
      (if Complete(h, history, network, states[0], i, j, states[1]) && !Idle(network, states[0][i], states[0][j])
        then 1 else 0)
        + Productive(h, history, network, states[1..], pairs[1..])
  }

  lemma RunTail(h: Hashes, history: set<Event>, network: Text, states: seq<Replicas>, pairs: seq<(nat, nat)>)
    requires MeshRun(h, history, network, states, pairs) && pairs != []
    ensures MeshRun(h, history, network, states[1..], pairs[1..])
  {
    hide MeshStep;
    forall k | 0 <= k < |pairs[1..]|
      ensures MeshStep(h, history, network, states[1..][k], pairs[1..][k].0, pairs[1..][k].1, states[1..][k + 1])
    {
      assert MeshStep(h, history, network, states[k + 1], pairs[k + 1].0, pairs[k + 1].1, states[k + 2]);
    }
  }

  /** However sessions are scheduled and cut off, no run has more productive sessions than envelopes
      and copies were lacking at its start. */
  lemma {:induction false} ProductiveSessionsBounded(h: Hashes, history: set<Event>, network: Text,
      states: seq<Replicas>, pairs: seq<(nat, nat)>)
    requires MeshRun(h, history, network, states, pairs) && Quiescent(h, history, states[0])
    ensures Productive(h, history, network, states, pairs)
      + TotalLacking(states[|pairs|], history) <= TotalLacking(states[0], history)
    ensures Quiescent(h, history, states[|pairs|])
    decreases |pairs|
  {
    hide Quiescent, MeshStep, Idle, Complete, TotalLacking;
    if pairs != [] {
      RunTail(h, history, network, states, pairs);
      assert MeshStep(h, history, network, states[0], pairs[0].0, pairs[0].1, states[1]);
      SessionProgress(h, history, network, states[0], pairs[0].0, pairs[0].1, states[1]);
      ProductiveSessionsBounded(h, history, network, states[1..], pairs[1..]);
    }
  }

  /****** What it means that nothing moves any more ******/

  /** A path in the peer graph along whose links every session is idle. */
  ghost predicate IdlePath(network: Text, ms: Replicas, path: seq<nat>) {
    && path != []
    && (forall k :: 0 <= k < |path| ==> path[k] < |ms|)
    && forall k {:trigger path[k]} :: 0 <= k < |path| - 1 ==> IdleLink(network, ms, path[k], path[k + 1])
  }

  ghost predicate IdleLink(network: Text, ms: Replicas, i: nat, j: nat) {
    i < |ms| && j < |ms| && Idle(network, ms[i], ms[j])
  }

  /** Nodes joined by idle links show and hide the same references. */
  lemma {:induction false} IdlePathAgrees(h: Hashes, history: set<Event>, network: Text, ms: Replicas, path: seq<nat>)
    requires Quiescent(h, history, ms) && IdlePath(network, ms, path)
    ensures Visible(ms[path[0]], network).Keys == Visible(ms[path[|path| - 1]], network).Keys
    ensures forall r: Ref :: r.network == network ==>
      (r in Superseded(ms[path[0]]) <==> r in Superseded(ms[path[|path| - 1]]))
    decreases |path|
  {
    hide Calm, Closed, Superseded, Visible, Idle;
    if |path| > 1 {
      assert IdleLink(network, ms, path[0], path[1]);
      assert Holds(ms[path[0]], history) && Holds(ms[path[1]], history);
      IdleMeansAgreed(h, history, network, ms[path[0]], ms[path[1]]);
      forall k | 0 <= k < |path[1..]| - 1 ensures IdleLink(network, ms, path[1..][k], path[1..][k + 1]) {
        assert IdleLink(network, ms, path[k + 1], path[k + 2]);
      }
      IdlePathAgrees(h, history, network, ms, path[1..]);
    }
  }

  ghost predicate Connected(network: Text, ms: Replicas) {
    forall i: nat, j: nat :: i < |ms| && j < |ms| ==> Joined(network, ms, i, j)
  }

  ghost predicate Joined(network: Text, ms: Replicas, i: nat, j: nat) {
    exists path: seq<nat> :: path != [] && path[0] == i && path[|path| - 1] == j && IdlePath(network, ms, path)
  }

  /** When every session on a connected peer graph is idle, all nodes show and hide the same
      references. */
  lemma IdleMeshConverged(h: Hashes, history: set<Event>, network: Text, ms: Replicas, i: nat, j: nat)
    requires Quiescent(h, history, ms) && Connected(network, ms) && i < |ms| && j < |ms|
    ensures Visible(ms[i], network).Keys == Visible(ms[j], network).Keys
    ensures forall r: Ref :: r.network == network ==> (r in Superseded(ms[i]) <==> r in Superseded(ms[j]))
  {
    assert Joined(network, ms, i, j);
    var path: seq<nat> :| path != [] && path[0] == i && path[|path| - 1] == j && IdlePath(network, ms, path);
    IdlePathAgrees(h, history, network, ms, path);
  }

  /** An envelope shown differently at the ends of an idle path is a reported conflict of some link. */
  lemma {:induction false} DifferenceIsReported(h: Hashes, history: set<Event>, network: Text, ms: Replicas,
      path: seq<nat>, r: Ref)
    requires Quiescent(h, history, ms) && IdlePath(network, ms, path)
    requires r in Visible(ms[path[0]], network) && r in Visible(ms[path[|path| - 1]], network)
    requires ms[path[0]][r] != ms[path[|path| - 1]][r]
    ensures exists k :: 0 <= k < |path| - 1 && r in Conflicts(Visible(ms[path[k]], network), ms[path[k + 1]])
    decreases |path|
  {
    hide Calm, Closed, Superseded, Idle;
    if |path| > 1 {
      assert IdleLink(network, ms, path[0], path[1]);
      assert Holds(ms[path[0]], history) && Holds(ms[path[1]], history);
      IdleMeansAgreed(h, history, network, ms[path[0]], ms[path[1]]);
      if ms[path[0]][r] != ms[path[1]][r] {
        assert r in Conflicts(Visible(ms[path[0]], network), ms[path[0 + 1]]);
      } else {
        var rest := path[1..];
        forall k | 0 <= k < |rest| - 1 ensures IdleLink(network, ms, rest[k], rest[k + 1]) {
          assert IdleLink(network, ms, path[k + 1], path[k + 2]);
        }
        DifferenceIsReported(h, history, network, ms, rest, r);
        var k :| 0 <= k < |rest| - 1 && r in Conflicts(Visible(ms[rest[k]], network), ms[rest[k + 1]]);
        assert r in Conflicts(Visible(ms[path[k + 1]], network), ms[path[k + 1 + 1]]);
      }
    }
  }

  /****** A finite history always exists ******/

  /** The envelopes held anywhere, together with a copy of every superseded one. */
  ghost function Completion(h: Hashes, held: set<Event>): set<Event> {
    held + SupersededCopies(h, held)
  }

  ghost function SupersededCopies(h: Hashes, held: set<Event>): set<Event> {
    set e | e in held && (exists x :: x in held && Supersedes(x, e)) :: Recover(h, e)
  }

  lemma CopiesArePlainAndGenuine(h: Hashes, held: set<Event>, c: Event)
    requires Calm(h, held) && c in SupersededCopies(h, held)
    ensures Parse(c).Plain? && Genuine(h, c) && IsCopyRef(h, RefOf(c))
  {
    var e :| e in held && (exists x :: x in held && Supersedes(x, e)) && c == Recover(h, e);
    var x :| x in held && Supersedes(x, e);
    assert Undisputed(h, held, x) && Undisputed(h, held, e);
    CopyIsCopyRef(h, e);
    forall f: Event | RefOf(Recover(h, f)) == RefOf(c) ensures c == Recover(h, f) {
      RecoverInjective(h, f, e);
    }
  }

  /** Every calm set of envelopes has a calm completion to which its replicas can be driven and
      which they never leave. */
  lemma CompletionIsCalmAndClosed(h: Hashes, held: set<Event>)
    requires Calm(h, held)
    ensures Calm(h, Completion(h, held)) && Closed(h, Completion(h, held)) && held <= Completion(h, held)
  {
    var all := Completion(h, held);
    forall e | e in all ensures Genuine(h, e) {
      if e !in held {
        CopiesArePlainAndGenuine(h, held, e);
      }
    }
    forall x | x in all ensures Undisputed(h, all, x) {
      CompletionUndisputed(h, held, x);
    }
    forall x, e | x in all && e in all && Supersedes(x, e) ensures Recover(h, e) in all {
      if x !in held {
        CopiesArePlainAndGenuine(h, held, x);
      } else {
        assert Undisputed(h, held, x);
        if e !in held {
          CopiesArePlainAndGenuine(h, held, e);
        }
      }
    }
  }

  lemma CompletionUndisputed(h: Hashes, held: set<Event>, x: Event)
    requires Calm(h, held) && x in Completion(h, held)
    ensures Undisputed(h, Completion(h, held), x)
  {
    var all := Completion(h, held);
    if x !in held {
      CopiesArePlainAndGenuine(h, held, x);
    } else {
      assert Undisputed(h, held, x);
      if Parse(x).Resolves? {
        forall e | e in all && RefOf(e) == RefOf(x) ensures e == x {
          if e !in held {
            CopiesArePlainAndGenuine(h, held, e);
            assert Genuine(h, x);
          }
        }
        forall e | e in all && RefOf(e) == TargetOf(x) ensures !Parse(e).Resolves? {
          if e !in held {
            CopiesArePlainAndGenuine(h, held, e);
          }
        }
      }
    }
  }
}
