/**
  No update storms: over any run in which no peer is marked from outside, each link carries a bounded
  number of announcements, whatever is lost, repeated or reordered.
*/
module BloomBound {
  import opened Basics
  import opened SpanningTree
  import opened BloomGossip
  import opened BloomConvergence

  /** Filters only grow: what was sent is part of what would be sent now, and a peer that was sent something
      before is pending only if that has changed. */
  ghost predicate Grown(base: Bits, treePeers: set<NodeAddr>, n: NodeState) {
    forall p | p in n.peers && p in n.lastSent ::
      var now := Outgoing(base, treePeers, n, p);
      base <= n.lastSent[p] <= now && (p in n.pending ==> n.lastSent[p] != now)
  }

  ghost predicate GrownAt(net: Network, s: State, u: NodeAddr)
    requires net.Valid() && Shape(net, s) && u in s.nodes
  {
    Grown(net.base[u], net.TreePeersOf(u), s.nodes[u])
  }

  lemma OutgoingGrows(base: Bits, treePeers: set<NodeAddr>, n: NodeState, from: NodeAddr, m: Announce, p: NodeAddr)
    requires from in n.peers
    requires n.peers[from].inbound.Some? ==> n.peers[from].inbound.value <= m.bits
    ensures Outgoing(base, treePeers, n, p)
         <= Outgoing(base, treePeers, n.(peers := n.peers[from := Peer(Some(m.bits), m.number)]), p)
  {
    var n' := n.(peers := n.peers[from := Peer(Some(m.bits), m.number)]);
    forall i | i in Outgoing(base, treePeers, n, p) ensures i in Outgoing(base, treePeers, n', p) {
      if w :| w in n.peers && w in treePeers && w != p && n.peers[w].inbound.Some? && i in n.peers[w].inbound.value {
        assert n'.peers[w].inbound.Some? && i in n'.peers[w].inbound.value;
      }
    }
  }

  lemma ReceiveGrown(base: Bits, treePeers: set<NodeAddr>, n: NodeState, from: NodeAddr, m: Announce)
    requires Grown(base, treePeers, n)
    requires from in n.peers && n.peers[from].number < m.number && n.peers[from].inbound.Some? ==>
               n.peers[from].inbound.value <= m.bits
    ensures Grown(base, treePeers, Receive(base, treePeers, n, from, m))
  {
    var n' := Receive(base, treePeers, n, from, m);
    if from in n.peers && n.peers[from].number < m.number {
      var stored := n.(peers := n.peers[from := Peer(Some(m.bits), m.number)]);
      OutgoingIgnoresExcluded(base, treePeers, n, from, Peer(Some(m.bits), m.number));
      forall p | p in n'.peers && p in n'.lastSent
        ensures base <= n'.lastSent[p] <= Outgoing(base, treePeers, n', p)
        ensures p in n'.pending ==> n'.lastSent[p] != Outgoing(base, treePeers, n', p)
      {
        OutgoingGrows(base, treePeers, n, from, m, p);
        SameOutgoing(base, treePeers, stored, n', p);
      }
    }
  }

  lemma SameOutgoing(base: Bits, treePeers: set<NodeAddr>, n: NodeState, n': NodeState, p: NodeAddr)
    requires n'.peers == n.peers
    ensures Outgoing(base, treePeers, n', p) == Outgoing(base, treePeers, n, p)
  {}

  lemma SendGrown(base: Bits, treePeers: set<NodeAddr>, n: NodeState, peer: NodeAddr)
    requires Grown(base, treePeers, n)
    ensures Grown(base, treePeers, Sent(base, treePeers, n, peer))
  {}

  /** Later announcements on a link contain earlier ones. */
  ghost predicate Ordered(net: Network, s: State, u: NodeAddr, v: NodeAddr)
    requires net.Valid() && Shape(net, s) && (u, v) in net.links
  {
    var l := (u, v);
    && (forall m | m in s.wires[l] :: l in s.sent && m.bits <= s.sent[l].bits)
    && (forall m, m' | m in s.wires[l] && m' in s.wires[l] && m.number < m'.number :: m.bits <= m'.bits)
    && (u in s.nodes[v].peers && s.nodes[v].peers[u].inbound.Some? ==>
          var p := s.nodes[v].peers[u];
          && l in s.sent && p.inbound.value <= s.sent[l].bits
          && forall m | m in s.wires[l] && p.number < m.number :: p.inbound.value <= m.bits)
  }

  ghost predicate BoundInv(net: Network, s: State)
    requires net.Valid()
  {
    && Inv(net, s)
    && (forall u {:trigger GrownAt(net, s, u)} | u in s.nodes :: GrownAt(net, s, u))
    && (forall u, v {:trigger Ordered(net, s, u, v)} | (u, v) in net.links :: Ordered(net, s, u, v))
  }

  lemma InitBound(net: Network, s: State)
    requires net.Valid() && Init(net, s)
    ensures BoundInv(net, s)
  {
    hide Tree.Valid, Network.Valid, Network.PeersOf, Network.TreePeersOf, Current, Horizon, Newest, Init, GrownAt,
        Ordered;
    InitInv(net, s);
    forall u | u in s.nodes ensures GrownAt(net, s, u) {
      InitGrown(net, s, u);
    }
    forall u, v | (u, v) in net.links ensures Ordered(net, s, u, v) {
      InitOrdered(net, s, u, v);
    }
  }

  lemma InitGrown(net: Network, s: State, u: NodeAddr)
    requires net.Valid() && Init(net, s) && Shape(net, s) && u in s.nodes
    ensures GrownAt(net, s, u)
  {
    hide Tree.Valid, Network.TreePeersOf, Network.PeersOf, Outgoing;
    assert StartsFresh(net, s, u);
  }

  lemma InitOrdered(net: Network, s: State, u: NodeAddr, v: NodeAddr)
    requires net.Valid() && Init(net, s) && Shape(net, s) && (u, v) in net.links
    ensures Ordered(net, s, u, v)
  {
    hide Tree.Valid, Network.TreePeersOf;
    assert s.wires[(u, v)] == {};
    assert StartsFresh(net, s, v);
  }

  /** The next announcement on a link contains the last one. */
  ghost predicate NextContainsLast(net: Network, s: State, u: NodeAddr, v: NodeAddr)
    requires net.Valid() && Shape(net, s) && u in s.nodes
  {
    (u, v) in s.sent ==>
      s.sent[(u, v)].bits <= NextAnnounce(net.base[u], net.TreePeersOf(u), s.nodes[u], v).bits
      && s.sent[(u, v)].number <= s.nodes[u].sequence
  }

  lemma SendContainsLast(net: Network, s: State, u: NodeAddr, v: NodeAddr)
    requires net.Valid() && Shape(net, s) && (u, v) in net.links
    requires Newest(net, s, u, v) && GrownAt(net, s, u)
    ensures NextContainsLast(net, s, u, v)
  {
    hide Tree.Valid, Network.TreePeersOf, Network.PeersOf, Outgoing;
    PeerOfLink(net, s, u, v);
  }

  lemma SendOrdered(net: Network, s: State, u: NodeAddr, v: NodeAddr, a: NodeAddr, b: NodeAddr)
    requires net.Valid() && Shape(net, s) && Enabled(net, s, Send(u, v)) && (a, b) in net.links
    requires Ordered(net, s, a, b) && Newest(net, s, a, b)
    requires (a, b) == (u, v) ==> NextContainsLast(net, s, u, v)
    requires Shape(net, Next(net, s, Send(u, v)))
    ensures Ordered(net, Next(net, s, Send(u, v)), a, b)
  {
    hide Tree.Valid, Network.Valid, Network.TreePeersOf, Network.PeersOf, Outgoing;
  }

  lemma PeerOfLink(net: Network, s: State, u: NodeAddr, v: NodeAddr)
    requires net.Valid() && Shape(net, s) && (u, v) in net.links
    ensures u in s.nodes && v in s.nodes && v in s.nodes[u].peers
  {
    hide Tree.Valid;
    assert s.nodes[u].peers.Keys == net.PeersOf(u);
  }

  lemma DeliverOrdered(net: Network, s: State, e: Event, a: NodeAddr, b: NodeAddr)
    requires net.Valid() && Shape(net, s) && e.Deliver? && Enabled(net, s, e) && (a, b) in net.links
    requires Ordered(net, s, a, b)
    requires Shape(net, Next(net, s, e))
    ensures Ordered(net, Next(net, s, e), a, b)
  {
    hide Tree.Valid, Network.Valid, Network.TreePeersOf, Network.PeersOf, Changed;
  }

  lemma OtherOrdered(net: Network, s: State, e: Event, a: NodeAddr, b: NodeAddr)
    requires net.Valid() && Shape(net, s) && Enabled(net, s, e) && (a, b) in net.links
    requires e.SendFailed? || e.Lose?
    requires Ordered(net, s, a, b)
    requires Shape(net, Next(net, s, e))
    ensures Ordered(net, Next(net, s, e), a, b)
  {
    hide Tree.Valid, Network.Valid, Network.TreePeersOf, Network.PeersOf;
  }

  lemma NextGrown(net: Network, s: State, e: Event, a: NodeAddr)
    requires net.Valid() && Shape(net, s) && Enabled(net, s, e) && !e.Mark? && a in s.nodes
    requires GrownAt(net, s, a)
    requires e.Deliver? ==> Ordered(net, s, e.u, e.v)
    requires Shape(net, Next(net, s, e))
    ensures a in Next(net, s, e).nodes && GrownAt(net, Next(net, s, e), a)
  {
    hide Tree.Valid, Network.TreePeersOf, Network.PeersOf, Outgoing, Changed, Grown;
    match e
    case Send(u, v) =>
      if a == u {
        SendGrown(net.base[u], net.TreePeersOf(u), s.nodes[u], v);
      }
    case Deliver(u, v, m, _) =>
      if a == v {
        ReceiveGrown(net.base[v], net.TreePeersOf(v), s.nodes[v], u, m);
      }
    case SendFailed(u) =>
      SequenceGrown(net.base[a], net.TreePeersOf(a), s.nodes[a], Next(net, s, e).nodes[a]);
    case Lose(_, _, _) =>
  }

  lemma SequenceGrown(base: Bits, treePeers: set<NodeAddr>, n: NodeState, n': NodeState)
    requires Grown(base, treePeers, n)
    requires n'.peers == n.peers && n'.lastSent == n.lastSent && n'.pending == n.pending
    ensures Grown(base, treePeers, n')
  {}

  lemma NextBound(net: Network, s: State, e: Event)
    requires net.Valid() && BoundInv(net, s) && Enabled(net, s, e) && !e.Mark?
    ensures BoundInv(net, Next(net, s, e))
  {
    hide Tree.Valid, Network.Valid, Network.PeersOf, Network.TreePeersOf, Horizon, Newest, Current, Ordered, GrownAt,
        Next, Enabled;
    NextInv(net, s, e);
    var s' := Next(net, s, e);
    LinkEnds(net, s, e);
    forall a | a in s'.nodes ensures GrownAt(net, s', a) {
      NextGrown(net, s, e, a);
    }
    forall a, b | (a, b) in net.links ensures Ordered(net, s', a, b) {
      NextOrdered(net, s, e, a, b);
    }
  }

  lemma LinkEnds(net: Network, s: State, e: Event)
    requires net.Valid() && Shape(net, s) && Enabled(net, s, e)
    ensures e.Deliver? || e.Send? ==> (e.u, e.v) in net.links && e.u in s.nodes
    ensures Next(net, s, e).nodes.Keys == s.nodes.Keys
  {
    hide Tree.Valid;
  }

  lemma NextOrdered(net: Network, s: State, e: Event, a: NodeAddr, b: NodeAddr)
    requires net.Valid() && BoundInv(net, s) && Enabled(net, s, e) && !e.Mark? && (a, b) in net.links
    requires Shape(net, Next(net, s, e))
    ensures Ordered(net, Next(net, s, e), a, b)
  {
    hide Tree.Valid, Network.Valid, Network.PeersOf, Network.TreePeersOf, Horizon, Newest, Current, Ordered, GrownAt,
        Next, Enabled;
    LinkEnds(net, s, e);
    match e
    case Send(u, v) =>
      SendContainsLast(net, s, u, v);
      SendOrdered(net, s, u, v, a, b);
    case Deliver(_, _, _, _) => DeliverOrdered(net, s, e, a, b);
    case _ => OtherOrdered(net, s, e, a, b);
  }

  // ----- counting announcements on one link -----

  function Sends(events: seq<Event>, u: NodeAddr, v: NodeAddr): nat {
    if events == [] then 0
    else (if events[0] == Send(u, v) then 1 else 0) + Sends(events[1..], u, v)
  }

  /** How far the filter on a link has grown: one for having been sent, and one for each bit beyond the
      sender's own. */
  ghost function Growth(net: Network, s: State, u: NodeAddr, v: NodeAddr): int
    requires net.Valid() && Shape(net, s) && (u, v) in net.links
  {
    if (u, v) in s.sent then 1 + |s.sent[(u, v)].bits| - |net.base[u]| else 0
  }

  lemma GrowthStep(net: Network, s: State, e: Event, u: NodeAddr, v: NodeAddr)
    requires net.Valid() && Shape(net, s) && Enabled(net, s, e) && (u, v) in net.links
    requires Newest(net, s, u, v) && GrownAt(net, s, u) && Shape(net, Next(net, s, e))
    ensures Growth(net, Next(net, s, e), u, v) >= Growth(net, s, u, v) + (if e == Send(u, v) then 1 else 0)
  {
    hide Tree.Valid, Network.TreePeersOf, Network.PeersOf;
    if e == Send(u, v) {
      PeerOfLink(net, s, u, v);
      var now := NextAnnounce(net.base[u], net.TreePeersOf(u), s.nodes[u], v).bits;
      if (u, v) in s.sent {
        SmallerSubset(s.sent[(u, v)].bits, now);
      } else {
        SubsetSize(net.base[u], now);
      }
    }
  }

  lemma {:induction false} RunGrowth(net: Network, s: State, events: seq<Event>, end: State, u: NodeAddr, v: NodeAddr)
    requires net.Valid() && BoundInv(net, s) && Run(net, s, events, end) && (u, v) in net.links
    requires forall e | e in events :: !e.Mark?
    ensures BoundInv(net, end)
    ensures Growth(net, s, u, v) + Sends(events, u, v) <= Growth(net, end, u, v)
    decreases |events|
  {
    hide Tree.Valid, Network.Valid, Shape, Current, Horizon, Newest, Ordered, GrownAt, Growth, Next, Enabled;
    if events != [] {
      var s' := Next(net, s, events[0]);
      NextBound(net, s, events[0]);
      StepGrowth(net, s, events[0], u, v);
      RunGrowth(net, s', events[1..], end, u, v);
    }
  }

  lemma StepGrowth(net: Network, s: State, e: Event, u: NodeAddr, v: NodeAddr)
    requires net.Valid() && BoundInv(net, s) && Enabled(net, s, e) && (u, v) in net.links
    requires Shape(net, Next(net, s, e))
    ensures Growth(net, Next(net, s, e), u, v) >= Growth(net, s, u, v) + (if e == Send(u, v) then 1 else 0)
  {
    hide Tree.Valid, Network.PeersOf, Current, Horizon, Newest, Ordered, GrownAt, Growth, Next, Enabled;
    GrowthStep(net, s, e, u, v);
  }

  /** Each link carries at most one announcement more than there are bits to learn over it. */
  lemma NoUpdateStorm(net: Network, s: State, events: seq<Event>, end: State, u: NodeAddr, v: NodeAddr)
    requires net.Valid() && Init(net, s) && Run(net, s, events, end) && (u, v) in net.links
    requires forall e | e in events :: !e.Mark?
    ensures Sends(events, u, v) <= 1 + |net.BitsOf(net.Behind(u, v))| - |net.base[u]|
  {
    hide Tree.Valid, Network.PeersOf, Network.BitsOf, Network.Behind, Run, GrownAt, Ordered, Newest, Current,
        Horizon, Growth;
    InitBound(net, s);
    NothingSent(net, s, u, v);
    RunGrowth(net, s, events, end, u, v);
    GrowthBounded(net, end, u, v);
  }

  lemma NothingSent(net: Network, s: State, u: NodeAddr, v: NodeAddr)
    requires net.Valid() && Init(net, s) && Shape(net, s) && (u, v) in net.links
    ensures Growth(net, s, u, v) == 0
  {}

  lemma GrowthBounded(net: Network, s: State, u: NodeAddr, v: NodeAddr)
    requires net.Valid() && Shape(net, s) && (u, v) in net.links && Horizon(net, s, u, v)
    ensures Growth(net, s, u, v) <= 1 + |net.BitsOf(net.Behind(u, v))| - |net.base[u]|
  {
    hide Tree.Valid, Network.BitsOf, Network.Behind;
    OwnBitsBehind(net, u, v);
    if (u, v) in s.sent {
      SubsetSize(s.sent[(u, v)].bits, net.BitsOf(net.Behind(u, v)));
    }
    SubsetSize(net.base[u], net.BitsOf(net.Behind(u, v)));
  }

  lemma OwnBitsBehind(net: Network, u: NodeAddr, v: NodeAddr)
    requires net.Valid() && (u, v) in net.links
    ensures net.base[u] <= net.BitsOf(net.Behind(u, v))
  {
    if net.tree.TreePeer(u, v) {
      SidesSplit(net.tree, u, v);
    }
    assert u in net.Behind(u, v);
  }
}
