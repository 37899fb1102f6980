/**
  A node's handlers for sending and receiving filter announcements. Each is proved to take exactly the
  step of `BloomGossip` that it stands for, on the sets of bits its filter objects hold.
*/
module BloomNode {
  import opened Basics
  import opened BloomFilter
  import opened BloomState
  import G = BloomGossip

  datatype PeerFilter = PeerFilter(inbound: Option<Filter>, filterSequence: nat)

  datatype SendOutcome = Suppressed | Sent(announce: FilterAnnounce) | Failed

  class Node {
    const bloom: BloomState
    var peers: map<NodeAddr, PeerFilter>
    /** Our parent and the peers that declare us as theirs, as far as the tree state knows. */
    var treePeers: set<NodeAddr>

    ghost predicate Valid()
      reads this, bloom
    {
      && bloom.Valid()
      && forall p | p in peers && peers[p].inbound.Some? :: peers[p].inbound.value.NumBits() == DEFAULT_FILTER_SIZE_BITS
    }

    constructor (sha: Sha, ownNodeAddr: NodeAddr)
      ensures Valid() && fresh(bloom) && bloom.sha == sha && bloom.ownNodeAddr == ownNodeAddr
      ensures peers == map[] && treePeers == {} && View() == G.NodeState(map[], {}, map[], 0)
    {
      bloom := new BloomState(sha, ownNodeAddr);
      peers, treePeers := map[], {};
    }

    ghost function View(): G.NodeState
      reads this, bloom
    {
      ViewOf(peers, bloom.pendingUpdates, bloom.lastSentFilters, bloom.sequence)
    }

    method PeerInboundFilters() returns (filters: map<NodeAddr, Filter>)
      ensures filters == InboundFilters(peers, treePeers)
    {
      filters := map[];
      var keys := peers.Keys;
      while keys != {}
        invariant keys <= peers.Keys
        invariant filters == InboundFilters(peers - keys, treePeers)
        decreases |keys|
      {
        var a :| a in keys;
        if a in treePeers && peers[a].inbound.Some? {
          filters := filters[a := peers[a].inbound.value];
        }
        keys := keys - {a};
      }
      assert peers - {} == peers;
    }

    method BuildFilterAnnounce(excludePeer: NodeAddr) returns (announce: FilterAnnounce)
      requires Valid()
      modifies bloom`sequence
      ensures Valid() && announce.IsValid() && announce.IsV1Compliant() && announce.filter.IsDefault()
      ensures G.Announce(announce.filter.Ones(), announce.sequence)
              == G.NextAnnounce(bloom.Base(), treePeers, old(View()), excludePeer)
      ensures bloom.sequence == announce.sequence
    {
      hide OutgoingBits, BaseBits, Filter.Ones, G.Outgoing;
      var peerFilters := PeerInboundFilters();
      var filter := bloom.ComputeOutgoingFilter(excludePeer, peerFilters);
      OutgoingAgrees(bloom.Base(), this.peers, treePeers, View(), excludePeer);
      var n := bloom.NextSequence();
      announce := NewAnnounce(filter, n);
    }

    /** Send a pending update unless it comes too soon after the last; `delivered` is the transport's answer. */
    method SendFilterAnnounceToPeer(peer: NodeAddr, nowMs: nat, delivered: bool) returns (r: SendOutcome)
      requires Valid()
      modifies bloom
      ensures Valid() && bloom.leafDependents == old(bloom.leafDependents)
      ensures r.Suppressed? <==>
              peer !in old(bloom.pendingUpdates)
              || (peer in old(bloom.lastUpdateSent)
                  && nowMs < old(bloom.lastUpdateSent[peer]) + old(bloom.updateDebounceMs))
      ensures r.Suppressed? ==> View() == old(View()) && bloom.lastUpdateSent == old(bloom.lastUpdateSent)
      ensures r.Failed? ==> !delivered && bloom.lastUpdateSent == old(bloom.lastUpdateSent)
                            && View() == old(View()).(sequence := old(View()).sequence + 1)
      ensures r.Sent? ==>
                && delivered && bloom.lastUpdateSent == old(bloom.lastUpdateSent)[peer := nowMs]
                && r.announce.IsValid() && r.announce.IsV1Compliant()
                && G.Announce(r.announce.filter.Ones(), r.announce.sequence)
                   == G.NextAnnounce(old(bloom.Base()), treePeers, old(View()), peer)
                && View() == G.Sent(old(bloom.Base()), treePeers, old(View()), peer)
    {
      hide OutgoingBits, BaseBits, Filter.Ones, G.Outgoing;
      var ready := bloom.ShouldSendUpdate(peer, nowMs);
      if !ready {
        return Suppressed;
      }
      var announce := BuildFilterAnnounce(peer);
      if !delivered {
        return Failed;
      }
      bloom.RecordUpdateSent(peer, nowMs);
      bloom.RecordSentFilter(peer, announce.filter);
      r := Sent(announce);
    }

    /** Malformed and non-standard filters, unknown peers and stale numbers change nothing; anything else is
        the receive step of the protocol. */
    method HandleFilterAnnounce(from: NodeAddr, announce: FilterAnnounce)
      requires Valid()
      modifies this`peers, bloom`pendingUpdates
      ensures Valid()
      ensures View() == if announce.IsValid() && announce.IsV1Compliant()
                        then G.Receive(bloom.Base(), treePeers, old(View()), from,
                                       G.Announce(announce.filter.Ones(), announce.sequence))
                        else old(View())
    {
      hide OutgoingBits, BaseBits, Filter.Ones, G.Changed, ViewOf, InboundFilters;
      if !announce.IsValid() || !announce.IsV1Compliant() {
        return;
      }
      if from !in peers {
        return;
      }
      if announce.sequence <= peers[from].filterSequence {
        return;
      }
      V1Size(announce);
      peers := peers[from := PeerFilter(Some(announce.filter), announce.sequence)];
      var peerAddrs := SeqOfKeys(peers);
      var peerFilters := PeerInboundFilters();
      ghost var stored := View();
      bloom.MarkChangedPeers(from, peerAddrs, peerFilters);
      StoredView(old(peers), old(bloom.pendingUpdates), bloom.lastSentFilters, bloom.sequence, from, announce);
      ChangedAgrees(bloom.Base(), peers, treePeers, stored, bloom.lastSentFilters, from);
      PendingView(peers, stored.pending, bloom.pendingUpdates, bloom.lastSentFilters, bloom.sequence);
    }
  }

  ghost function ViewOf(peers: map<NodeAddr, PeerFilter>, pending: set<NodeAddr>, lastSent: map<NodeAddr, Filter>,
      number: nat): (n: G.NodeState)
    ensures n.pending == pending && n.sequence == number && n.peers.Keys == peers.Keys
    ensures forall p | p in peers :: n.peers[p].number == peers[p].filterSequence
  {
    G.NodeState(map p | p in peers :: G.Peer(if peers[p].inbound.Some? then Some(peers[p].inbound.value.Ones())
                                             else None,
                                             peers[p].filterSequence),
                pending, map p | p in lastSent :: lastSent[p].Ones(), number)
  }

  function InboundFilters(peers: map<NodeAddr, PeerFilter>, treePeers: set<NodeAddr>): map<NodeAddr, Filter> {
    map a | a in peers && a in treePeers && peers[a].inbound.Some? :: peers[a].inbound.value
  }

  function NewAnnounce(filter: Filter, number: nat): (a: FilterAnnounce)
    requires filter.IsDefault()
    ensures a.IsValid() && a.IsV1Compliant() && a.filter == filter && a.sequence == number
  {
    FilterAnnounce(filter, number, filter.hashCount, 1)
  }

  lemma V1Size(a: FilterAnnounce)
    requires a.IsValid() && a.IsV1Compliant()
    ensures a.filter.NumBits() == DEFAULT_FILTER_SIZE_BITS
  {}

  method SeqOfKeys(m: map<NodeAddr, PeerFilter>) returns (s: seq<NodeAddr>)
    ensures forall p :: p in s <==> p in m
  {
    s := [];
    var keys := m.Keys;
    while keys != {}
      invariant keys <= m.Keys
      invariant forall p :: p in s <==> p in m && p !in keys
      decreases |keys|
    {
      var a :| a in keys;
      s := s + [a];
      keys := keys - {a};
    }
  }

  /** What the filter objects give is what the protocol computes on sets of bits. */
  lemma OutgoingAgrees(base: set<nat>, peers: map<NodeAddr, PeerFilter>, treePeers: set<NodeAddr>, n: G.NodeState,
      exclude: NodeAddr)
    requires forall p | p in peers && peers[p].inbound.Some? ::
               peers[p].inbound.value.NumBits() == DEFAULT_FILTER_SIZE_BITS
    requires n.peers == ViewOf(peers, n.pending, map[], n.sequence).peers
    ensures OutgoingBits(base, InboundFilters(peers, treePeers), exclude) == G.Outgoing(base, treePeers, n, exclude)
  {
    hide Filter.Ones;
    var m := InboundFilters(peers, treePeers);
    forall i ensures i in OutgoingBits(base, m, exclude) <==> i in G.Outgoing(base, treePeers, n, exclude) {
      if p :| p in m && p != exclude && m[p].NumBits() == DEFAULT_FILTER_SIZE_BITS && i in m[p].Ones() {
        assert p in n.peers && n.peers[p].inbound == Some(m[p].Ones());
      }
      if p :| p in n.peers && p in treePeers && p != exclude && n.peers[p].inbound.Some?
              && i in n.peers[p].inbound.value {
        assert p in m && m[p].Ones() == n.peers[p].inbound.value;
      }
    }
  }

  lemma PendingView(peers: map<NodeAddr, PeerFilter>, pending: set<NodeAddr>, other: set<NodeAddr>,
      lastSent: map<NodeAddr, Filter>, number: nat)
    ensures ViewOf(peers, other, lastSent, number) == ViewOf(peers, pending, lastSent, number).(pending := other)
  {}

  lemma StoredView(peers: map<NodeAddr, PeerFilter>, pending: set<NodeAddr>, lastSent: map<NodeAddr, Filter>,
      number: nat, from: NodeAddr, a: FilterAnnounce)
    requires from in peers
    ensures var n := ViewOf(peers, pending, lastSent, number);
            ViewOf(peers[from := PeerFilter(Some(a.filter), a.sequence)], pending, lastSent, number)
            == n.(peers := n.peers[from := G.Peer(Some(a.filter.Ones()), a.sequence)])
  {}

  lemma ChangedAgrees(base: set<nat>, peers: map<NodeAddr, PeerFilter>, treePeers: set<NodeAddr>, n: G.NodeState,
      lastSent: map<NodeAddr, Filter>, from: NodeAddr)
    requires forall p | p in peers && peers[p].inbound.Some? ::
               peers[p].inbound.value.NumBits() == DEFAULT_FILTER_SIZE_BITS
    requires n == ViewOf(peers, n.pending, lastSent, n.sequence)
    ensures (set p | p in peers && p != from
               && (p !in lastSent || lastSent[p].Ones() != OutgoingBits(base, InboundFilters(peers, treePeers), p)))
            == G.Changed(base, treePeers, n, from)
  {
    hide Filter.Ones, OutgoingBits, G.Outgoing, InboundFilters;
    forall p ensures OutgoingBits(base, InboundFilters(peers, treePeers), p) == G.Outgoing(base, treePeers, n, p) {
      OutgoingAgrees(base, peers, treePeers, n, p);
    }
  }
}
