/**
  What one lost announcement does: a run of the smallest network that becomes quiet without exact filters.
*/
module BloomLoss {
  import opened Basics
  import opened SpanningTree
  import opened BloomGossip
  import opened BloomConvergence

  /** The smallest network: a root, 0, and its child, 1, with one bit each. */
  ghost predicate IsPair(net: Network) {
    && net.Valid() && net.links == {(0, 1), (1, 0)} && net.tree.nodes == {0, 1}
    && net.PeersOf(0) == net.TreePeersOf(0) == {1} && net.PeersOf(1) == net.TreePeersOf(1) == {0}
    && 0 in net.base && 1 in net.base && net.base[0] == {5} && net.base[1] == {6}
  }

  lemma PairExists() returns (net: Network)
    ensures IsPair(net) && net.Valid() && net.tree.nodes == {0, 1} && (0, 1) in net.links
    ensures 0 in net.base && net.base[0] != {}
  {
    var tree := Tree({0, 1}, 0, map[0 := 0, 1 := 0], map[0 := 0, 1 := 1]);
    assert tree.Hangs(1);
    assert tree.Valid();
    net := Network(tree, {(0, 1), (1, 0)}, map[0 := {5}, 1 := {6}]);
    assert net.PeersOf(0) == net.TreePeersOf(0) == {1};
    assert net.PeersOf(1) == net.TreePeersOf(1) == {0};
  }

  /** One of the two nodes, before or after it sent, and what it heard. */
  function PairNode(peer: NodeAddr, own: nat, sent: bool, heard: Option<Bits>): NodeState {
    NodeState(map[peer := Peer(heard, if heard.Some? then 1 else 0)], if sent then {} else {peer},
              if sent then map[peer := {own}] else map[], if sent then 1 else 0)
  }

  /** A state of the pair, all but the history. */
  predicate PairState(s: State, root: NodeState, child: NodeState, down: set<Announce>, up: set<Announce>) {
    && s.nodes.Keys == {0, 1} && s.nodes[0] == root && s.nodes[1] == child
    && s.wires.Keys == {(0, 1), (1, 0)} && s.wires[(0, 1)] == down && s.wires[(1, 0)] == up
  }

  /** A node that has heard nothing announces its own bit. */
  lemma OwnBitSent(peer: NodeAddr, own: nat)
    ensures NextAnnounce({own}, {peer}, PairNode(peer, own, false, None), peer) == Announce({own}, 1)
    ensures Sent({own}, {peer}, PairNode(peer, own, false, None), peer) == PairNode(peer, own, true, None)
  {
    assert Outgoing({own}, {peer}, PairNode(peer, own, false, None), peer) == {own};
  }

  /** What its only peer sends changes nothing a node owes. */
  lemma OnlyPeerHeard(peer: NodeAddr, own: nat, bits: Bits)
    ensures Receive({own}, {peer}, PairNode(peer, own, true, None), peer, Announce(bits, 1))
            == PairNode(peer, own, true, Some(bits))
  {
    assert Changed({own}, {peer}, PairNode(peer, own, true, Some(bits)), peer) == {};
  }

  lemma PairSends(net: Network, s: State, u: NodeAddr, v: NodeAddr, own: nat)
    requires IsPair(net) && s.nodes.Keys == {0, 1} && (u, v) in s.wires && u in {0, 1} && v == 1 - u
    requires net.base[u] == {own} && s.nodes[u] == PairNode(v, own, false, None)
    ensures Enabled(net, s, Send(u, v))
    ensures var s' := Next(net, s, Send(u, v));
            && s'.nodes == s.nodes[u := PairNode(v, own, true, None)]
            && s'.wires == s.wires[(u, v) := s.wires[(u, v)] + {Announce({own}, 1)}]
  {
    assert net.tree.Valid();
    hide Network.Valid, Network.PeersOf, Network.TreePeersOf;
    assert net.TreePeersOf(u) == {v};
    OwnBitSent(v, own);
    hide Sent, Outgoing, PairNode;
  }

  lemma PairLoses(net: Network, s: State, m: Announce)
    requires IsPair(net) && s.nodes.Keys == {0, 1} && (0, 1) in s.wires && m in s.wires[(0, 1)]
    ensures Enabled(net, s, Lose(0, 1, m))
    ensures var s' := Next(net, s, Lose(0, 1, m));
            s'.nodes == s.nodes && s'.wires == s.wires[(0, 1) := s.wires[(0, 1)] - {m}]
  {}

  lemma PairHears(net: Network, s: State, u: NodeAddr, v: NodeAddr, own: nat, bits: Bits)
    requires IsPair(net) && s.nodes.Keys == {0, 1} && (u, v) in s.wires && v in {0, 1} && u == 1 - v
    requires net.base[v] == {own} && s.nodes[v] == PairNode(u, own, true, None)
    requires Announce(bits, 1) in s.wires[(u, v)]
    ensures Enabled(net, s, Deliver(u, v, Announce(bits, 1), false))
    ensures var s' := Next(net, s, Deliver(u, v, Announce(bits, 1), false));
            && s'.nodes == s.nodes[v := PairNode(u, own, true, Some(bits))]
            && s'.wires == s.wires[(u, v) := s.wires[(u, v)] - {Announce(bits, 1)}]
  {
    assert net.tree.Valid();
    hide Network.Valid, Network.PeersOf, Network.TreePeersOf, Receive, PairNode;
    assert net.TreePeersOf(v) == {u};
    OnlyPeerHeard(u, own, bits);
  }

  lemma PairStarts(net: Network) returns (s: State)
    requires IsPair(net)
    ensures s.nodes.Keys == {0, 1} && Init(net, s)
    ensures PairState(s, PairNode(1, 5, false, None), PairNode(0, 6, false, None), {}, {})
  {
    hide Network.Valid, Network.PeersOf, Network.TreePeersOf;
    s := State(map[0 := PairNode(1, 5, false, None), 1 := PairNode(0, 6, false, None)],
               map[(0, 1) := {}, (1, 0) := {}], map[]);
    assert StartsFresh(net, s, 0) && StartsFresh(net, s, 1);
  }

  lemma PairFirst(net: Network, s: State) returns (s1: State, s2: State)
    requires IsPair(net) && PairState(s, PairNode(1, 5, false, None), PairNode(0, 6, false, None), {}, {})
    ensures Enabled(net, s, Send(0, 1)) && s1 == Next(net, s, Send(0, 1)) && s1.nodes.Keys == {0, 1}
    ensures var e := Lose(0, 1, Announce({5}, 1)); Enabled(net, s1, e) && s2 == Next(net, s1, e)
    ensures s2.nodes.Keys == {0, 1}
    ensures PairState(s2, PairNode(1, 5, true, None), PairNode(0, 6, false, None), {}, {})
  {
    hide Network.Valid, Network.PeersOf, Network.TreePeersOf, Next, Enabled, PairNode;
    PairSends(net, s, 0, 1, 5);
    s1 := Next(net, s, Send(0, 1));
    PairLoses(net, s1, Announce({5}, 1));
    s2 := Next(net, s1, Lose(0, 1, Announce({5}, 1)));
  }

  lemma PairSecond(net: Network, s: State) returns (s1: State, s2: State)
    requires IsPair(net) && PairState(s, PairNode(1, 5, true, None), PairNode(0, 6, false, None), {}, {})
    ensures Enabled(net, s, Send(1, 0)) && s1 == Next(net, s, Send(1, 0)) && s1.nodes.Keys == {0, 1}
    ensures var e := Deliver(1, 0, Announce({6}, 1), false); Enabled(net, s1, e) && s2 == Next(net, s1, e)
    ensures PairState(s2, PairNode(1, 5, true, Some({6})), PairNode(0, 6, true, None), {}, {})
  {
    hide Network.Valid, Network.PeersOf, Network.TreePeersOf, Next, Enabled, PairNode;
    PairSends(net, s, 1, 0, 6);
    s1 := Next(net, s, Send(1, 0));
    PairHears(net, s1, 1, 0, 5, {6});
    s2 := Next(net, s1, Deliver(1, 0, Announce({6}, 1), false));
  }

  lemma PairQuiet(net: Network, s: State)
    requires PairState(s, PairNode(1, 5, true, Some({6})), PairNode(0, 6, true, None), {}, {})
    ensures Quiet(net, s) && 1 in s.nodes && 0 in s.nodes[1].peers && s.nodes[1].peers[0].inbound == None
  {}

  /** One lost announcement, and the protocol is quiet although the child has not heard of the root:
      nothing is sent any more unless something outside marks the peer. */
  lemma LostAnnouncementRun() returns (net: Network, s: State, events: seq<Event>, end: State)
    ensures net.Valid() && Init(net, s) && Run(net, s, events, end) && Quiet(net, end)
    ensures (0, 1) in net.links && 1 in end.nodes && 0 in end.nodes[1].peers && 0 in net.base
    ensures end.nodes[1].peers[0].inbound == None && net.base[0] != {}
  {
    hide *;
    net := PairExists();
    s := PairStarts(net);
    var s1, s2 := PairFirst(net, s);
    var s3;
    s3, end := PairSecond(net, s2);
    PairQuiet(net, end);
    events := [Send(0, 1), Lose(0, 1, Announce({5}, 1)), Send(1, 0), Deliver(1, 0, Announce({6}, 1), false)];
    RunFour(net, events, s, s1, s2, s3, end);
  }

  lemma RunFour(net: Network, events: seq<Event>, s: State, s1: State, s2: State, s3: State, end: State)
    requires net.Valid() && |events| == 4
    requires s.nodes.Keys == s1.nodes.Keys == s2.nodes.Keys == s3.nodes.Keys == net.tree.nodes
    requires Enabled(net, s, events[0]) && Next(net, s, events[0]) == s1
    requires Enabled(net, s1, events[1]) && Next(net, s1, events[1]) == s2
    requires Enabled(net, s2, events[2]) && Next(net, s2, events[2]) == s3
    requires Enabled(net, s3, events[3]) && Next(net, s3, events[3]) == end
    ensures Run(net, s, events, end)
  {
    hide Tree.Valid, Network.Valid, Enabled, Next;
    assert events[1..][1..] == events[2..] && events[2..][1..] == events[3..] && events[3..][1..] == [];
    assert Run(net, end, [], end) && Run(net, s3, events[3..], end);
    assert Run(net, s2, events[2..], end);
    assert Run(net, s1, events[1..], end);
  }
}
