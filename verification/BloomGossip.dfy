/**
  Announcement of Bloom filters over a fixed spanning tree, as a protocol of steps: any node may send any
  pending announcement, and announcements may be delivered in any order, repeatedly, or never. Filters are
  sets of bit positions here; the objects that hold them are in `BloomNode`.
*/
module BloomGossip {
  import opened Basics
  import opened SpanningTree

  type Bits = set<nat>

  datatype Announce = Announce(bits: Bits, number: nat)

  /** What a node keeps about one peer: the last accepted filter and its sequence number. */
  datatype Peer = Peer(inbound: Option<Bits>, number: nat)

  datatype NodeState = NodeState(peers: map<NodeAddr, Peer>,
                                 pending: set<NodeAddr>,
                                 lastSent: map<NodeAddr, Bits>,
                                 sequence: nat)

  // ----- one node -----

  /** The filter for one peer: our own entries and what the other tree peers told us. */
  ghost function Outgoing(base: Bits, treePeers: set<NodeAddr>, n: NodeState, exclude: NodeAddr): Bits {
    base + set w, i | w in n.peers && w in treePeers && w != exclude
                      && n.peers[w].inbound.Some? && i in n.peers[w].inbound.value :: i
  }

  ghost function Changed(base: Bits, treePeers: set<NodeAddr>, n: NodeState, from: NodeAddr): set<NodeAddr> {
    set p | p in n.peers && p != from
            && (p !in n.lastSent || n.lastSent[p] != Outgoing(base, treePeers, n, p))
  }

  /** Store a fresher filter and mark the peers whose own filter it changes. */
  ghost function Receive(base: Bits, treePeers: set<NodeAddr>, n: NodeState, from: NodeAddr, m: Announce): NodeState {
    if from !in n.peers || m.number <= n.peers[from].number then n
    else
      var stored := n.(peers := n.peers[from := Peer(Some(m.bits), m.number)]);
      stored.(pending := stored.pending + Changed(base, treePeers, stored, from))
  }

  ghost function NextAnnounce(base: Bits, treePeers: set<NodeAddr>, n: NodeState, peer: NodeAddr): Announce {
    Announce(Outgoing(base, treePeers, n, peer), n.sequence + 1)
  }

  ghost function Sent(base: Bits, treePeers: set<NodeAddr>, n: NodeState, peer: NodeAddr): NodeState {
    var m := NextAnnounce(base, treePeers, n, peer);
    n.(pending := n.pending - {peer}, lastSent := n.lastSent[peer := m.bits], sequence := m.number)
  }

  /** Every peer either awaits an update or was last sent exactly the filter computed now. */
  ghost predicate UpToDate(base: Bits, treePeers: set<NodeAddr>, n: NodeState) {
    forall p {:trigger PeerUpToDate(base, treePeers, n, p)} | p in n.peers :: PeerUpToDate(base, treePeers, n, p)
  }

  ghost predicate PeerUpToDate(base: Bits, treePeers: set<NodeAddr>, n: NodeState, p: NodeAddr) {
    p in n.pending || (p in n.lastSent && n.lastSent[p] == Outgoing(base, treePeers, n, p))
  }

  /** A peer's own filter plays no part in what we send it. */
  lemma OutgoingIgnoresExcluded(base: Bits, treePeers: set<NodeAddr>, n: NodeState, peer: NodeAddr, entry: Peer)
    ensures Outgoing(base, treePeers, n.(peers := n.peers[peer := entry]), peer) == Outgoing(base, treePeers, n, peer)
  {
    var n' := n.(peers := n.peers[peer := entry]);
    forall i ensures i in Outgoing(base, treePeers, n', peer) <==> i in Outgoing(base, treePeers, n, peer) {
      if w :| w in n.peers && w in treePeers && w != peer && n.peers[w].inbound.Some? && i in n.peers[w].inbound.value {
        assert n'.peers[w] == n.peers[w];
      }
      if w :| w in n'.peers && w in treePeers && w != peer && n'.peers[w].inbound.Some?
              && i in n'.peers[w].inbound.value {
        assert n'.peers[w] == n.peers[w];
      }
    }
  }

  /** Skipping the source of an announcement when marking changed peers loses no update. */
  lemma ReceiveKeepsUpToDate(base: Bits, treePeers: set<NodeAddr>, n: NodeState, from: NodeAddr, m: Announce)
    requires UpToDate(base, treePeers, n)
    ensures UpToDate(base, treePeers, Receive(base, treePeers, n, from, m))
  {
    var n' := Receive(base, treePeers, n, from, m);
    if from in n.peers && n.peers[from].number < m.number {
      var stored := n.(peers := n.peers[from := Peer(Some(m.bits), m.number)]);
      OutgoingIgnoresExcluded(base, treePeers, n, from, Peer(Some(m.bits), m.number));
      forall p | p in n'.peers ensures PeerUpToDate(base, treePeers, n', p) {
        assert p in n.peers ==> PeerUpToDate(base, treePeers, n, p);
        assert Outgoing(base, treePeers, n', p) == Outgoing(base, treePeers, stored, p);
      }
    }
  }

  /** What is not newer than the last accepted announcement changes nothing, a repetition included. */
  lemma StaleIgnored(base: Bits, treePeers: set<NodeAddr>, n: NodeState, from: NodeAddr, m: Announce, stale: Announce)
    requires stale.number <= m.number
    ensures var n' := Receive(base, treePeers, n, from, m);
            Receive(base, treePeers, n', from, stale) == n'
    ensures from !in n.peers ==> Receive(base, treePeers, n, from, m) == n
    ensures from in n.peers && n.peers[from].number < m.number ==>
              Receive(base, treePeers, n, from, m).peers == n.peers[from := Peer(Some(m.bits), m.number)]
  {}

  lemma SendKeepsUpToDate(base: Bits, treePeers: set<NodeAddr>, n: NodeState, peer: NodeAddr)
    requires UpToDate(base, treePeers, n)
    ensures UpToDate(base, treePeers, Sent(base, treePeers, n, peer))
  {
    var n' := Sent(base, treePeers, n, peer);
    forall p | p in n'.peers ensures PeerUpToDate(base, treePeers, n', p) {
      assert Outgoing(base, treePeers, n', p) == Outgoing(base, treePeers, n, p);
      assert PeerUpToDate(base, treePeers, n, p);
    }
  }

  // ----- the network -----

  type Link = (NodeAddr, NodeAddr)

  /** A fixed tree, the links between nodes, and the bits of each node with its leaf dependents. */
  datatype Network = Network(tree: Tree, links: set<Link>, base: map<NodeAddr, Bits>) {
    ghost predicate Valid() {
      && tree.Valid()
      && base.Keys == tree.nodes
      && (forall l | l in links :: l.0 in tree.nodes && l.1 in tree.nodes && l.0 != l.1 && (l.1, l.0) in links)
      && (forall u, v | u in tree.nodes && v in tree.nodes && tree.TreePeer(u, v) :: (u, v) in links)
    }

    ghost function PeersOf(u: NodeAddr): set<NodeAddr> {
      set v | v in tree.nodes && (u, v) in links
    }

    ghost function TreePeersOf(u: NodeAddr): set<NodeAddr>
      requires tree.Valid()
    {
      set v | v in tree.nodes && tree.TreePeer(u, v)
    }

    /** The nodes whose entries may travel from `u` to `v`: `u`'s side of a tree link, and the whole tree
        over any other link. */
    ghost function Behind(u: NodeAddr, v: NodeAddr): set<NodeAddr>
      requires tree.Valid()
    {
      if tree.TreePeer(u, v) then tree.Side(u, v) else tree.nodes
    }

    ghost function BitsOf(nodes: set<NodeAddr>): Bits {
      set d, i | d in nodes && d in base && i in base[d] :: i
    }
  }

  /** `sent` is a history variable: the last announcement each node put on each link. */
  datatype State = State(nodes: map<NodeAddr, NodeState>, wires: map<Link, set<Announce>>, sent: map<Link, Announce>)

  datatype Event =
    | Send(u: NodeAddr, v: NodeAddr)
    | SendFailed(u: NodeAddr)
    | Deliver(u: NodeAddr, v: NodeAddr, m: Announce, again: bool)
    | Lose(u: NodeAddr, v: NodeAddr, m: Announce)
    | Mark(u: NodeAddr, peers: set<NodeAddr>)

  ghost predicate Init(net: Network, s: State)
    requires net.Valid()
  {
    && s.nodes.Keys == net.tree.nodes
    && s.wires.Keys == net.links
    && s.sent == map[]
    && (forall l | l in net.links :: s.wires[l] == {})
    && forall u {:trigger StartsFresh(net, s, u)} | u in net.tree.nodes :: StartsFresh(net, s, u)
  }

  /** A node that knows its peers' addresses, has heard nothing and owes each of them an announcement. */
  ghost predicate StartsFresh(net: Network, s: State, u: NodeAddr) {
    u in s.nodes && s.nodes[u] == NodeState(map v | v in net.PeersOf(u) :: Peer(None, 0), net.PeersOf(u), map[], 0)
  }

  ghost predicate Enabled(net: Network, s: State, e: Event) {
    match e
    case Send(u, v) => u in s.nodes && (u, v) in s.wires && v in s.nodes[u].pending
    case SendFailed(u) => u in s.nodes
    case Deliver(u, v, m, _) => v in s.nodes && (u, v) in s.wires && m in s.wires[(u, v)]
    case Lose(u, v, m) => (u, v) in s.wires && m in s.wires[(u, v)]
    case Mark(u, peers) => u in s.nodes && peers <= s.nodes[u].peers.Keys
  }

  ghost function Next(net: Network, s: State, e: Event): State
    requires net.Valid() && s.nodes.Keys == net.tree.nodes && Enabled(net, s, e)
  {
    match e
    case Send(u, v) =>
      var n, l := s.nodes[u], (u, v);
      var m := NextAnnounce(net.base[u], net.TreePeersOf(u), n, v);
      State(s.nodes[u := Sent(net.base[u], net.TreePeersOf(u), n, v)],
            s.wires[l := s.wires[l] + {m}], s.sent[l := m])
    case SendFailed(u) =>
      s.(nodes := s.nodes[u := s.nodes[u].(sequence := s.nodes[u].sequence + 1)])
    case Deliver(u, v, m, again) =>
      var l := (u, v);
      s.(nodes := s.nodes[v := Receive(net.base[v], net.TreePeersOf(v), s.nodes[v], u, m)],
         wires := if again then s.wires else s.wires[l := s.wires[l] - {m}])
    case Lose(u, v, m) =>
      s.(wires := s.wires[(u, v) := s.wires[(u, v)] - {m}])
    case Mark(u, peers) =>
      s.(nodes := s.nodes[u := s.nodes[u].(pending := s.nodes[u].pending + peers)])
  }

  // ----- what every step keeps -----

  ghost predicate Shape(net: Network, s: State)
    requires net.Valid()
  {
    && s.nodes.Keys == net.tree.nodes
    && s.wires.Keys == net.links
    && s.sent.Keys <= net.links
    && forall u {:trigger net.PeersOf(u)} | u in s.nodes :: s.nodes[u].peers.Keys == net.PeersOf(u)
  }

  /** Split horizon: nothing on, before or behind the link from `u` to `v` comes from `v`'s side. */
  ghost predicate Horizon(net: Network, s: State, u: NodeAddr, v: NodeAddr)
    requires net.Valid() && Shape(net, s) && (u, v) in net.links
  {
    var allowed := net.BitsOf(net.Behind(u, v));
    && (forall m | m in s.wires[(u, v)] :: m.bits <= allowed)
    && (u in s.nodes[v].peers ==> s.nodes[v].peers[u].inbound.Some? ==> s.nodes[v].peers[u].inbound.value <= allowed)
    && ((u, v) in s.sent ==> s.sent[(u, v)].bits <= allowed)
  }

  /** The last announcement sent on a link is the newest thing its receiver can know about it. */
  ghost predicate Newest(net: Network, s: State, u: NodeAddr, v: NodeAddr)
    requires net.Valid() && Shape(net, s) && (u, v) in net.links
  {
    var l := (u, v);
    && (l in s.sent <==> v in s.nodes[u].lastSent)
    && (l in s.sent ==> s.nodes[u].lastSent[v] == s.sent[l].bits && 1 <= s.sent[l].number <= s.nodes[u].sequence)
    && (forall m | m in s.wires[l] :: l in s.sent && 1 <= m.number <= s.sent[l].number
                                      && (m.number == s.sent[l].number ==> m == s.sent[l]))
    && u in s.nodes[v].peers
    && var p := s.nodes[v].peers[u];
       (p.number == 0 || (l in s.sent && p.number <= s.sent[l].number
                          && (p.number == s.sent[l].number ==> p.inbound == Some(s.sent[l].bits))))
  }

  /** Change detection at node `u`. */
  ghost predicate Current(net: Network, s: State, u: NodeAddr)
    requires net.Valid() && Shape(net, s) && u in s.nodes
  {
    UpToDate(net.base[u], net.TreePeersOf(u), s.nodes[u])
  }

  ghost predicate Inv(net: Network, s: State)
    requires net.Valid()
  {
    && Shape(net, s)
    && (forall u {:trigger Current(net, s, u)} | u in s.nodes :: Current(net, s, u))
    && (forall u, v {:trigger Horizon(net, s, u, v)} | (u, v) in net.links :: Horizon(net, s, u, v))
    && (forall u, v {:trigger Newest(net, s, u, v)} | (u, v) in net.links :: Newest(net, s, u, v))
  }

  lemma InitLink(net: Network, s: State, u: NodeAddr, v: NodeAddr)
    requires net.Valid() && Init(net, s) && Shape(net, s) && (u, v) in net.links
    ensures Newest(net, s, u, v) && Horizon(net, s, u, v)
  {
    hide Tree.Valid, Network.Behind, Network.BitsOf;
    assert s.wires[(u, v)] == {};
    assert u in net.PeersOf(v);
    assert StartsFresh(net, s, u) && StartsFresh(net, s, v);
  }

  lemma InitInv(net: Network, s: State)
    requires net.Valid() && Init(net, s)
    ensures Inv(net, s)
  {
    hide Tree.Valid, Network.Valid, Network.PeersOf, Horizon, Newest, Current, Init;
    InitShape(net, s);
    forall u, v | (u, v) in net.links ensures Newest(net, s, u, v) && Horizon(net, s, u, v) {
      InitLink(net, s, u, v);
    }
  }

  lemma InitShape(net: Network, s: State)
    requires net.Valid() && Init(net, s)
    ensures Shape(net, s)
    ensures forall u {:trigger Current(net, s, u)} | u in s.nodes :: Current(net, s, u)
  {
    hide Tree.Valid;
    forall u | u in s.nodes ensures s.nodes[u].peers.Keys == net.PeersOf(u) {
      assert StartsFresh(net, s, u);
    }
    forall u | u in s.nodes ensures Current(net, s, u) {
      assert StartsFresh(net, s, u);
    }
  }

  /** The filter a node computes for a link stays on its side. */
  lemma OutgoingOnSide(net: Network, s: State, u: NodeAddr, v: NodeAddr)
    requires net.Valid() && Inv(net, s) && (u, v) in net.links
    ensures Outgoing(net.base[u], net.TreePeersOf(u), s.nodes[u], v) <= net.BitsOf(net.Behind(u, v))
  {
    var n := s.nodes[u];
    forall i | i in Outgoing(net.base[u], net.TreePeersOf(u), n, v)
      ensures i in net.BitsOf(net.Behind(u, v))
    {
      if i in net.base[u] {
        if net.tree.TreePeer(u, v) {
          SidesSplit(net.tree, u, v);
        }
        assert u in net.Behind(u, v);
      } else {
        var w :| w in n.peers && w in net.TreePeersOf(u) && w != v && n.peers[w].inbound.Some?
                 && i in n.peers[w].inbound.value;
        assert net.tree.TreePeer(w, u);
        assert Horizon(net, s, w, u);
        var d :| d in net.Behind(w, u) && d in net.base && i in net.base[d];
        if net.tree.TreePeer(u, v) {
          SideDecomposed(net.tree, u, v, d);
        }
        assert d in net.Behind(u, v);
      }
    }
  }

  lemma SendLink(net: Network, s: State, u: NodeAddr, v: NodeAddr, a: NodeAddr, b: NodeAddr)
    requires net.Valid() && Shape(net, s) && Enabled(net, s, Send(u, v)) && (a, b) in net.links
    requires Horizon(net, s, a, b) && Newest(net, s, a, b)
    requires SendsOnSide(net, s, u, v)
    ensures var s' := Next(net, s, Send(u, v));
            Shape(net, s') && Horizon(net, s', a, b) && Newest(net, s', a, b)
  {
    hide Outgoing, Tree.Valid, Network.Valid, Network.Behind, Network.BitsOf, Network.PeersOf, Network.TreePeersOf;
  }

  lemma SendNode(net: Network, s: State, u: NodeAddr, v: NodeAddr, a: NodeAddr)
    requires net.Valid() && Shape(net, s) && Enabled(net, s, Send(u, v)) && a in s.nodes
    requires Current(net, s, a)
    ensures var s' := Next(net, s, Send(u, v));
            Shape(net, s') && a in s'.nodes && Current(net, s', a)
  {
    hide Tree.Valid, Network.PeersOf, Network.TreePeersOf, UpToDate, Outgoing;
    if a == u {
      SendKeepsUpToDate(net.base[u], net.TreePeersOf(u), s.nodes[u], v);
    }
  }

  lemma SendInv(net: Network, s: State, u: NodeAddr, v: NodeAddr)
    requires net.Valid() && Inv(net, s) && Enabled(net, s, Send(u, v))
    ensures Inv(net, Next(net, s, Send(u, v)))
  {
    hide Tree.Valid, Network.Valid, Network.PeersOf, Horizon, Newest, Current, Next, SendsOnSide;
    SendOnSide(net, s, u, v);
    var s' := Next(net, s, Send(u, v));
    SendNode(net, s, u, v, u);
    forall a | a in s'.nodes ensures Current(net, s', a) {
      SendNode(net, s, u, v, a);
    }
    forall a, b | (a, b) in net.links ensures Horizon(net, s', a, b) && Newest(net, s', a, b) {
      SendLink(net, s, u, v, a, b);
    }
  }

  lemma SendOnSide(net: Network, s: State, u: NodeAddr, v: NodeAddr)
    requires net.Valid() && Inv(net, s) && Enabled(net, s, Send(u, v))
    ensures SendsOnSide(net, s, u, v)
  {
    hide Tree.Valid, Horizon, Newest, Outgoing, Network.PeersOf, Network.TreePeersOf, Network.Behind;
    OutgoingOnSide(net, s, u, v);
  }

  ghost predicate SendsOnSide(net: Network, s: State, u: NodeAddr, v: NodeAddr)
    requires net.Valid() && Shape(net, s) && u in s.nodes
  {
    NextAnnounce(net.base[u], net.TreePeersOf(u), s.nodes[u], v).bits <= net.BitsOf(net.Behind(u, v))
  }

  lemma DeliverLink(net: Network, s: State, e: Event, a: NodeAddr, b: NodeAddr)
    requires net.Valid() && Shape(net, s) && e.Deliver? && Enabled(net, s, e) && (a, b) in net.links
    requires Horizon(net, s, a, b) && Newest(net, s, a, b)
    requires Horizon(net, s, e.u, e.v) && Newest(net, s, e.u, e.v)
    ensures var s' := Next(net, s, e);
            Shape(net, s') && Horizon(net, s', a, b) && Newest(net, s', a, b)
  {
    hide Changed, Tree.Valid, Network.Valid, Network.Behind, Network.BitsOf, Network.PeersOf, Network.TreePeersOf;
  }

  lemma DeliverNode(net: Network, s: State, e: Event, a: NodeAddr)
    requires net.Valid() && Shape(net, s) && e.Deliver? && Enabled(net, s, e) && a in s.nodes
    requires Current(net, s, a)
    ensures var s' := Next(net, s, e);
            Shape(net, s') && a in s'.nodes && Current(net, s', a)
  {
    hide Tree.Valid, Network.PeersOf, Network.TreePeersOf, UpToDate, Changed;
    if a == e.v {
      ReceiveKeepsUpToDate(net.base[a], net.TreePeersOf(a), s.nodes[a], e.u, e.m);
    }
  }

  lemma DeliverInv(net: Network, s: State, e: Event)
    requires net.Valid() && Inv(net, s) && e.Deliver? && Enabled(net, s, e)
    ensures Inv(net, Next(net, s, e))
  {
    hide Tree.Valid, Network.Valid, Network.PeersOf, Horizon, Newest, Current, Next;
    var s' := Next(net, s, e);
    DeliverNode(net, s, e, e.v);
    forall a | a in s'.nodes ensures Current(net, s', a) {
      DeliverNode(net, s, e, a);
    }
    forall a, b | (a, b) in net.links ensures Horizon(net, s', a, b) && Newest(net, s', a, b) {
      DeliverLink(net, s, e, a, b);
    }
  }

  lemma OtherLink(net: Network, s: State, e: Event, a: NodeAddr, b: NodeAddr)
    requires net.Valid() && Shape(net, s) && Enabled(net, s, e) && (a, b) in net.links
    requires e.SendFailed? || e.Lose? || e.Mark?
    requires Horizon(net, s, a, b) && Newest(net, s, a, b)
    ensures var s' := Next(net, s, e);
            Shape(net, s') && Horizon(net, s', a, b) && Newest(net, s', a, b)
  {
    hide Tree.Valid, Network.Valid, Network.Behind, Network.BitsOf, Network.PeersOf, Network.TreePeersOf;
  }

  lemma OtherNodeIs(net: Network, s: State, e: Event, a: NodeAddr)
    requires net.Valid() && Shape(net, s) && Enabled(net, s, e) && a in s.nodes
    requires e.SendFailed? || e.Lose? || e.Mark?
    ensures var s' := Next(net, s, e);
            Shape(net, s') && a in s'.nodes
            && s'.nodes[a].peers == s.nodes[a].peers && s'.nodes[a].lastSent == s.nodes[a].lastSent
            && s.nodes[a].pending <= s'.nodes[a].pending
  {
    hide Tree.Valid, Network.Valid, Network.TreePeersOf, Network.PeersOf;
  }

  lemma OtherNode(net: Network, s: State, e: Event, a: NodeAddr)
    requires net.Valid() && Shape(net, s) && Enabled(net, s, e) && a in s.nodes
    requires e.SendFailed? || e.Lose? || e.Mark?
    requires Current(net, s, a)
    ensures var s' := Next(net, s, e);
            Shape(net, s') && a in s'.nodes && Current(net, s', a)
  {
    hide Tree.Valid, Network.TreePeersOf, Network.PeersOf, UpToDate, Next, Enabled;
    OtherNodeIs(net, s, e, a);
    SamePeersUpToDate(net.base[a], net.TreePeersOf(a), s.nodes[a], Next(net, s, e).nodes[a]);
  }

  /** More pending updates and other sequence numbers leave a node up to date. */
  lemma SamePeersUpToDate(base: Bits, treePeers: set<NodeAddr>, n: NodeState, n': NodeState)
    requires UpToDate(base, treePeers, n)
    requires n'.peers == n.peers && n'.lastSent == n.lastSent && n.pending <= n'.pending
    ensures UpToDate(base, treePeers, n')
  {
    forall p | p in n'.peers ensures PeerUpToDate(base, treePeers, n', p) {
      assert Outgoing(base, treePeers, n', p) == Outgoing(base, treePeers, n, p);
      assert PeerUpToDate(base, treePeers, n, p);
    }
  }

  lemma OtherShape(net: Network, s: State, e: Event)
    requires net.Valid() && Shape(net, s) && Enabled(net, s, e)
    requires e.SendFailed? || e.Lose? || e.Mark?
    ensures Shape(net, Next(net, s, e)) && Next(net, s, e).nodes.Keys == s.nodes.Keys
  {
    hide Tree.Valid, Network.Valid, Network.PeersOf;
  }

  lemma OtherInv(net: Network, s: State, e: Event)
    requires net.Valid() && Inv(net, s) && Enabled(net, s, e)
    requires e.SendFailed? || e.Lose? || e.Mark?
    ensures Inv(net, Next(net, s, e))
  {
    hide Tree.Valid, Network.Valid, Network.PeersOf, Horizon, Newest, Current, Next, Enabled;
    var s' := Next(net, s, e);
    OtherShape(net, s, e);
    forall a | a in s'.nodes ensures Current(net, s', a) {
      OtherNode(net, s, e, a);
    }
    forall a, b | (a, b) in net.links ensures Horizon(net, s', a, b) && Newest(net, s', a, b) {
      OtherLink(net, s, e, a, b);
    }
  }

  lemma NextInv(net: Network, s: State, e: Event)
    requires net.Valid() && Inv(net, s) && Enabled(net, s, e)
    ensures Inv(net, Next(net, s, e))
  {
    hide Tree.Valid, Network.Valid, Inv, Next, Enabled;
    match e
    case Send(u, v) => SendInv(net, s, u, v);
    case Deliver(_, _, _, _) => DeliverInv(net, s, e);
    case _ => OtherInv(net, s, e);
  }
}
