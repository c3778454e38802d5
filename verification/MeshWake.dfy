/** The mesh wake set: networks to synchronize, and a channel of capacity one whose token tells the loop
    to take them. */
module MeshWake {
  import opened Bytes
  import opened Listing

  datatype Loop = Waiting | Received | Syncing(networks: set<Text>)

  /** `senders` counts the signallers between their two halves: the network is in the set, the token
      has not been offered yet. */
  datatype SignalState = SignalState(networks: set<Text>, token: bool, senders: nat, loop: Loop)

  datatype SignalStep = Add(network: Text) | Send | Receive | Take | Finish

  predicate Enabled(w: SignalState, s: SignalStep) {
    match s
    case Add(network) => network != []
    case Send => w.senders > 0
    case Receive => w.loop.Waiting? && w.token
    case Take => w.loop.Received?
    case Finish => w.loop.Syncing?
  }

  /** A full channel drops the token that is sent to it. */
  function Next(w: SignalState, s: SignalStep): SignalState
    requires Enabled(w, s)
  {
    match s
    case Add(network) => w.(networks := w.networks + {network}, senders := w.senders + 1)
    case Send => w.(token := true, senders := w.senders - 1)
    case Receive => w.(token := false, loop := Received)
    case Take => w.(networks := {}, loop := Syncing(w.networks))
    case Finish => w.(loop := Waiting)
  }

  /** A waiting network always has a token, a loop about to take, or a signaller about to send. */
  ghost predicate SignalInv(w: SignalState) {
    w.networks != {} ==> w.token || w.loop.Received? || w.senders > 0
  }

  lemma StepKeeps(w: SignalState, s: SignalStep)
    requires SignalInv(w) && Enabled(w, s)
    ensures SignalInv(Next(w, s))
  {
  }

  /** How far the next take is away. */
  function Distance(w: SignalState): nat {
    4 * w.senders +
    match w.loop
    case Received => 1
    case Waiting => if w.token then 2 else 4
    case Syncing(_) => 5
  }

  /** As long as a network waits, some step of the signallers or of the loop can happen, and every one
      of them brings the take closer or is the take, which hands over every waiting network. */
  lemma WaitingNetworksAreTaken(w: SignalState)
    requires SignalInv(w) && w.networks != {}
    ensures Enabled(w, Send) || Enabled(w, Receive) || Enabled(w, Take) || Enabled(w, Finish)
    ensures forall s :: Enabled(w, s) && !s.Add? && !s.Take? ==>
      Distance(Next(w, s)) < Distance(w) && Next(w, s).networks == w.networks
    ensures Enabled(w, Take) ==> Next(w, Take).loop == Syncing(w.networks)
  {
  }

  ghost predicate RunsTo(w: SignalState, steps: seq<SignalStep>, w': SignalState)
    decreases |steps|
  {
    if steps == [] then w == w' else Enabled(w, steps[0]) && RunsTo(Next(w, steps[0]), steps[1..], w')
  }

  /** Without new signals, a take happens within Distance(w) steps of any schedule. */
  lemma {:induction false} TakeIsNear(w: SignalState, steps: seq<SignalStep>, w': SignalState)
    requires SignalInv(w) && w.networks != {} && RunsTo(w, steps, w')
    requires forall s :: s in steps ==> !s.Add?
    requires |steps| > Distance(w)
    ensures exists k :: 0 <= k < |steps| && steps[k] == Take
    decreases |steps|
  {
    if steps[0] != Take {
      assert steps[0] in steps;
      WaitingNetworksAreTaken(w);
      StepKeeps(w, steps[0]);
      forall s | s in steps[1..] ensures !s.Add? {
        assert s in steps;
      }
      TakeIsNear(Next(w, steps[0]), steps[1..], w');
      var k :| 0 <= k < |steps[1..]| && steps[1..][k] == Take;
      assert steps[k + 1] == Take;
    }
  }

  /** A signalled network waits, whatever else happens, until the next take, which hands it over and leaves
      nothing waiting. */
  lemma {:induction false} SignalWaits(w: SignalState, network: Text, steps: seq<SignalStep>, w': SignalState)
    requires network != [] && RunsTo(Next(w, Add(network)), steps, w')
    requires forall s :: s in steps ==> !s.Take?
    ensures network in w'.networks
    ensures Enabled(w', Take) ==>
      Next(w', Take).loop.Syncing? && network in Next(w', Take).loop.networks && Next(w', Take).networks == {}
  {
    WaitsUntilTaken(Next(w, Add(network)), network, steps, w');
  }

  lemma {:induction false} WaitsUntilTaken(w: SignalState, network: Text, steps: seq<SignalStep>, w': SignalState)
    requires network in w.networks && RunsTo(w, steps, w') && forall s :: s in steps ==> !s.Take?
    ensures network in w'.networks
    decreases |steps|
  {
    if steps != [] {
      assert steps[0] in steps;
      forall s | s in steps[1..] ensures !s.Take? {
        assert s in steps;
      }
      WaitsUntilTaken(Next(w, steps[0]), network, steps[1..], w');
    }
  }

  /** The wake set and the channel; where the signallers and the loop stand is ghost. */
  class Waker {
    var networks: set<Text>
    var token: bool
    ghost var senders: nat
    ghost var loop: Loop

    ghost function State(): SignalState
      reads this
    {
      SignalState(networks, token, senders, loop)
    }

    constructor ()
      ensures State() == SignalState({}, false, 0, Waiting) && SignalInv(State())
    {
      networks, token, senders, loop := {}, false, 0, Waiting;
    }

    /** The locked half of signalMeshSync. */
    method Mark(network: Text)
      requires network != []
      modifies this
      ensures State() == Next(old(State()), Add(network))
      ensures networks == old(networks) + {network} && token == old(token)
    {
      networks := networks + {network};
      senders := senders + 1;
    }

    /** The sending half of signalMeshSync: a full channel takes no second token. */
    method Offer()
      requires Enabled(State(), Send)
      modifies this
      ensures State() == Next(old(State()), Send)
      ensures token && networks == old(networks)
    {
      if !token {
        token := true;
      }
      senders := senders - 1;
    }

    /** The receive of meshEventSyncLoop, when it does not block. */
    method TryReceive() returns (ok: bool)
      requires loop.Waiting?
      modifies this
      ensures ok <==> Enabled(old(State()), Receive)
      ensures State() == if ok then Next(old(State()), Receive) else old(State())
      ensures ok == old(token) && !token && networks == old(networks)
    {
      ok := token;
      if ok {
        token := false;
        loop := Received;
      }
    }

    /** takeMeshWakeNetworks: everything that waits, in order, and the set is empty again. */
    method TakeNetworks() returns (taken: seq<Text>)
      requires Enabled(State(), Take)
      modifies this
      ensures State() == Next(old(State()), Take)
      ensures Ascends(taken) && forall network :: network in taken <==> network in old(networks)
      ensures networks == {} && token == old(token)
    {
      taken := Ascending(networks);
      loop := Syncing(networks);
      networks := {};
    }
  }
}
