/** Outbound synchronization and leaving one network exclude each other. */
module MeshExclusion {
  import opened Bytes
  import opened Keys

  const PEER_TAG: Text := Ascii("mesh-peer-v1:")

  /** meshPeerKey */
  function PeerKey(network: Text, peer: Text): Text {
    PEER_TAG + (Part(network) + peer)
  }

  function NetworkOfPeers(network: Text): Text {
    PEER_TAG + Part(network)
  }

  predicate OfNetwork(network: Text, key: Text) {
    NetworkOfPeers(network) <= key
  }

  lemma PeerPrefix(network: Text, other: Text, peer: Text)
    ensures OfNetwork(network, PeerKey(other, peer)) <==> network == other
  {
    PrefixAfter(PEER_TAG, Part(network), Part(other) + peer);
    PartSelects(network, other, peer);
  }

  /** A peer of a network has a key of its own. */
  lemma PeerKeyInjective(network: Text, peer: Text, other: Text, peer': Text)
    ensures PeerKey(network, peer) == PeerKey(other, peer') <==> network == other && peer == peer'
  {
    SamePrefix(PEER_TAG, Part(network) + peer, Part(other) + peer');
    PartIsSelfDelimiting(network, peer, other, peer');
  }

  /** The two sets behind one mutex. */
  class MeshGuard {
    var syncing: set<Text>
    var leaving: set<Text>

    ghost predicate Valid()
      reads this
    {
      forall network, peer {:trigger PeerKey(network, peer)} :: PeerKey(network, peer) in syncing ==>
        network !in leaving
    }

    constructor ()
      ensures Valid() && syncing == {} && leaving == {}
    {
      syncing, leaving := {}, {};
    }

    /** startMeshPeerSync */
    method StartPeerSync(network: Text, peer: Text) returns (ok: bool)
      requires Valid()
      modifies this
      ensures Valid() && leaving == old(leaving)
      ensures ok <==> network !in old(leaving) && PeerKey(network, peer) !in old(syncing)
      ensures syncing == if ok then old(syncing) + {PeerKey(network, peer)} else old(syncing)
    {
      if network in leaving {
        return false;
      }
      var key := PeerKey(network, peer);
      if key in syncing {
        return false;
      }
      syncing := syncing + {key};
      forall n, p | PeerKey(n, p) == key ensures n == network {
        PeerPrefix(n, network, peer);
        PeerPrefix(n, n, p);
      }
      ok := true;
    }

    /** startMeshNetworkLeave: refused while any peer of the network is being synchronized. */
    method StartNetworkLeave(network: Text) returns (ok: bool)
      requires Valid()
      modifies this
      ensures Valid() && syncing == old(syncing)
      ensures ok ==> network !in old(leaving) && forall peer :: PeerKey(network, peer) !in syncing
      ensures !ok ==> network in old(leaving) || exists key :: key in syncing && OfNetwork(network, key)
      ensures leaving == if ok then old(leaving) + {network} else old(leaving)
    {
      if network in leaving {
        return false;
      }
      hide OfNetwork, PeerKey;
      var left := syncing;
      while left != {}
        invariant left <= syncing && syncing == old(syncing) && leaving == old(leaving)
        invariant forall key :: key in syncing && key !in left ==> !OfNetwork(network, key)
        decreases |left|
      {
        var key :| key in left;
        if OfNetwork(network, key) {
          return false;
        }
        left := left - {key};
      }
      forall peer ensures PeerKey(network, peer) !in syncing {
        PeerPrefix(network, network, peer);
      }
      leaving := leaving + {network};
      ok := true;
    }

    /** finishMeshPeerSync */
    method FinishPeerSync(network: Text, peer: Text)
      requires Valid()
      modifies this
      ensures Valid() && syncing == old(syncing) - {PeerKey(network, peer)} && leaving == old(leaving)
    {
      syncing := syncing - {PeerKey(network, peer)};
    }

    /** finishMeshNetworkLeave */
    method FinishNetworkLeave(network: Text)
      requires Valid()
      modifies this
      ensures Valid() && leaving == old(leaving) - {network} && syncing == old(syncing)
    {
      leaving := leaving - {network};
    }
  }
}
