/**
  Whole runs of the filter announcement protocol: split horizon and change detection in every reachable
  state, and exact filters once the protocol is quiet.
*/
module BloomConvergence {
  import opened Basics
  import opened SpanningTree
  import opened BloomGossip

  ghost predicate Run(net: Network, s: State, events: seq<Event>, end: State)
    requires net.Valid()
    decreases |events|
  {
    if events == [] then s == end
    else s.nodes.Keys == net.tree.nodes && Enabled(net, s, events[0])
         && Run(net, Next(net, s, events[0]), events[1..], end)
  }

  lemma {:induction false} RunInv(net: Network, s: State, events: seq<Event>, end: State)
    requires net.Valid() && Inv(net, s) && Run(net, s, events, end)
    ensures Inv(net, end)
    decreases |events|
  {
    hide Tree.Valid, Network.Valid, Inv, Next, Enabled;
    if events != [] {
      NextInv(net, s, events[0]);
      RunInv(net, Next(net, s, events[0]), events[1..], end);
    }
  }

  /** Split horizon over any run, whatever is lost, repeated or reordered: what a node stores from a peer, what
      is on its way from there and what was sent last mention only nodes on that peer's side. */
  lemma SplitHorizon(net: Network, s: State, events: seq<Event>, end: State, u: NodeAddr, v: NodeAddr)
    requires net.Valid() && Init(net, s) && Run(net, s, events, end) && (u, v) in net.links
    ensures Shape(net, end) && u in end.nodes[v].peers
    ensures var p := end.nodes[v].peers[u];
            p.inbound.Some? ==> p.inbound.value <= net.BitsOf(net.Behind(u, v))
    ensures forall m | m in end.wires[(u, v)] :: m.bits <= net.BitsOf(net.Behind(u, v))
    ensures v in end.nodes[u].lastSent ==> end.nodes[u].lastSent[v] <= net.BitsOf(net.Behind(u, v))
  {
    hide Tree.Valid, Network.Valid, Network.BitsOf, Network.Behind;
    InitInv(net, s);
    RunInv(net, s, events, end);
    assert Horizon(net, end, u, v) && Newest(net, end, u, v);
  }

  /** Change detection over any run: each peer has an update pending or holds the filter computed now. */
  lemma NoUpdateForgotten(net: Network, s: State, events: seq<Event>, end: State, u: NodeAddr)
    requires net.Valid() && Init(net, s) && Run(net, s, events, end) && u in net.tree.nodes
    ensures u in end.nodes && UpToDate(net.base[u], net.TreePeersOf(u), end.nodes[u])
  {
    InitInv(net, s);
    RunInv(net, s, events, end);
    hide Tree.Valid, UpToDate;
    assert Current(net, end, u);
  }

  /** How often a node tried to send, with or without success. */
  function Tries(events: seq<Event>, u: NodeAddr): nat {
    if events == [] then 0
    else (if (events[0].Send? || events[0].SendFailed?) && events[0].u == u then 1 else 0) + Tries(events[1..], u)
  }

  /** Announcements are numbered by the tries of their sender, the failed ones included. */
  lemma {:induction false} NumberedByTries(net: Network, s: State, events: seq<Event>, end: State, u: NodeAddr)
    requires net.Valid() && Run(net, s, events, end) && u in s.nodes
    ensures u in end.nodes && end.nodes[u].sequence == s.nodes[u].sequence + Tries(events, u)
    decreases |events|
  {
    hide Tree.Valid, Network.Valid, Outgoing;
    if events != [] {
      NumberedByTries(net, Next(net, s, events[0]), events[1..], end, u);
    }
  }

  // ----- quiet states -----

  /** The last announcement sent on the link is still on its way or has been stored. */
  ghost predicate Arrives(net: Network, s: State, u: NodeAddr, v: NodeAddr)
    requires net.Valid() && Shape(net, s) && (u, v) in net.links
  {
    var l := (u, v);
    l in s.sent ==>
      s.sent[l] in s.wires[l] || (u in s.nodes[v].peers && s.nodes[v].peers[u].number == s.sent[l].number)
  }

  lemma ArrivesNext(net: Network, s: State, e: Event, u: NodeAddr, v: NodeAddr)
    requires net.Valid() && Shape(net, s) && Enabled(net, s, e) && !e.Lose? && (u, v) in net.links
    requires Newest(net, s, u, v) && Arrives(net, s, u, v)
    requires Shape(net, Next(net, s, e))
    ensures Arrives(net, Next(net, s, e), u, v)
  {
    hide Tree.Valid, Network.Valid, Network.PeersOf, Network.TreePeersOf, Outgoing, Changed;
  }

  lemma {:induction false} RunArrives(net: Network, s: State, events: seq<Event>, end: State, u: NodeAddr, v: NodeAddr)
    requires net.Valid() && Inv(net, s) && Run(net, s, events, end) && (u, v) in net.links
    requires forall e | e in events :: !e.Lose?
    requires Arrives(net, s, u, v)
    ensures Shape(net, end) && Arrives(net, end, u, v)
    decreases |events|
  {
    hide Tree.Valid, Network.Valid, Shape, Current, Horizon, Newest, Arrives, Next, Enabled;
    if events != [] {
      NextInv(net, s, events[0]);
      ArrivesNext(net, s, events[0], u, v);
      RunArrives(net, Next(net, s, events[0]), events[1..], end, u, v);
    }
  }

  ghost predicate Quiet(net: Network, s: State) {
    && (forall l | l in s.wires :: s.wires[l] == {})
    && (forall u | u in s.nodes :: s.nodes[u].pending == {})
  }

  /** The receiver of a link has stored the sender's last announcement. */
  ghost predicate Stored(net: Network, s: State, u: NodeAddr, v: NodeAddr)
    requires net.Valid() && Shape(net, s) && (u, v) in net.links
  {
    && (u, v) in s.sent && u in s.nodes[v].peers
    && s.nodes[v].peers[u].number == s.sent[(u, v)].number
  }

  /** The receiver's filter is the one its sender recorded as sent last, by whatever announcement it came. */
  ghost predicate Held(net: Network, s: State, u: NodeAddr, v: NodeAddr)
    requires net.Valid() && Shape(net, s) && (u, v) in net.links
  {
    && v in s.nodes[u].lastSent && u in s.nodes[v].peers
    && s.nodes[v].peers[u].inbound == Some(s.nodes[u].lastSent[v])
  }

  /** The receiver's filter holds the bits of every node behind the link and no others. */
  ghost predicate Exact(net: Network, s: State, u: NodeAddr, v: NodeAddr)
    requires net.Valid() && Shape(net, s) && (u, v) in net.links
  {
    u in s.nodes[v].peers && s.nodes[v].peers[u].inbound == Some(net.BitsOf(net.Behind(u, v)))
  }

  ghost function OutgoingNow(net: Network, s: State, u: NodeAddr, v: NodeAddr): Bits
    requires net.Valid() && Shape(net, s) && u in s.nodes
  {
    Outgoing(net.base[u], net.TreePeersOf(u), s.nodes[u], v)
  }

  /** In a quiet state the filter recorded as sent last is the one computed now. */
  lemma LastSentIsOutgoing(net: Network, s: State, u: NodeAddr, v: NodeAddr)
    requires net.Valid() && Inv(net, s) && Quiet(net, s) && (u, v) in net.links
    ensures v in s.nodes[u].lastSent && s.nodes[u].lastSent[v] == OutgoingNow(net, s, u, v)
  {
    assert Current(net, s, u);
    hide Tree.Valid, Outgoing;
    assert s.nodes[u].peers.Keys == net.PeersOf(u);
    assert PeerUpToDate(net.base[u], net.TreePeersOf(u), s.nodes[u], v);
  }

  lemma StoredIsHeld(net: Network, s: State, u: NodeAddr, v: NodeAddr)
    requires net.Valid() && Inv(net, s) && (u, v) in net.links && Stored(net, s, u, v)
    ensures Held(net, s, u, v)
  {
    assert Newest(net, s, u, v);
    hide Tree.Valid;
  }

  /** In a quiet state in which every last announcement was stored, a stored filter is what its sender
      would compute now. */
  lemma StoredIsOutgoing(net: Network, s: State, u: NodeAddr, v: NodeAddr)
    requires net.Valid() && Inv(net, s) && Quiet(net, s) && (u, v) in net.links && Stored(net, s, u, v)
    ensures u in s.nodes[v].peers
    ensures s.nodes[v].peers[u].inbound == Some(OutgoingNow(net, s, u, v))
  {
    StoredIsHeld(net, s, u, v);
    LastSentIsOutgoing(net, s, u, v);
  }

  lemma InOutgoing(net: Network, s: State, u: NodeAddr, v: NodeAddr, w: NodeAddr, i: nat)
    requires net.Valid() && Shape(net, s) && u in s.nodes
    requires if w == u then i in net.base[u]
             else w in net.TreePeersOf(u) && w != v && w in s.nodes[u].peers
                  && s.nodes[u].peers[w].inbound.Some? && i in s.nodes[u].peers[w].inbound.value
    ensures i in OutgoingNow(net, s, u, v)
  {}

  /** A node behind a link is its near end or behind one of that end's other tree peers. */
  lemma ViaPeer(net: Network, u: NodeAddr, v: NodeAddr, d: NodeAddr) returns (w: NodeAddr)
    requires net.Valid() && (u, v) in net.links && d in net.Behind(u, v) && d != u
    ensures w in net.TreePeersOf(u) && w != v && (w, u) in net.links && d in net.Behind(w, u)
  {
    var t := net.tree;
    if t.TreePeer(u, v) {
      SideDecomposed(t, u, v, d);
      w :| t.TreePeer(u, w) && w != v && d in t.Side(w, u);
    } else {
      w := TowardsExists(t, u, d);
    }
    assert t.TreePeer(w, u);
  }

  /** What is behind such a peer is strictly less. */
  lemma LessBehind(net: Network, u: NodeAddr, v: NodeAddr, w: NodeAddr)
    requires net.Valid() && (u, v) in net.links && w in net.TreePeersOf(u) && w != v
    ensures (w, u) in net.links && |net.Behind(w, u)| < |net.Behind(u, v)|
  {
    var t := net.tree;
    assert t.TreePeer(w, u);
    forall x | x in net.Behind(w, u) ensures x in net.Behind(u, v) {
      if t.TreePeer(u, v) {
        SideDecomposed(t, u, v, x);
      }
    }
    SidesSplit(t, w, u);
    if t.TreePeer(u, v) {
      SidesSplit(t, u, v);
    }
    assert u in net.Behind(u, v) && u !in net.Behind(w, u);
    assert net.Behind(w, u) < net.Behind(u, v);
    SmallerSubset(net.Behind(w, u), net.Behind(u, v));
  }

  /** From exact filters a node computes an exact filter. */
  lemma OutgoingIsExact(net: Network, s: State, u: NodeAddr, v: NodeAddr)
    requires net.Valid() && Inv(net, s) && (u, v) in net.links
    requires forall w {:trigger Exact(net, s, w, u)} | w in net.TreePeersOf(u) && w != v && (w, u) in net.links ::
               Exact(net, s, w, u)
    ensures OutgoingNow(net, s, u, v) == net.BitsOf(net.Behind(u, v))
  {
    hide Tree.Valid, Network.Behind, Current, Horizon, Newest, Outgoing;
    OutgoingOnSide(net, s, u, v);
    forall i | i in net.BitsOf(net.Behind(u, v)) ensures i in OutgoingNow(net, s, u, v) {
      var d :| d in net.Behind(u, v) && d in net.base && i in net.base[d];
      if d == u {
        InOutgoing(net, s, u, v, u, i);
      } else {
        var w := ViaPeer(net, u, v, d);
        assert Exact(net, s, w, u) && i in net.BitsOf(net.Behind(w, u));
        InOutgoing(net, s, u, v, w, i);
      }
    }
  }

  lemma {:induction false} HeldIsExact(net: Network, s: State, u: NodeAddr, v: NodeAddr)
    requires net.Valid() && Inv(net, s) && Quiet(net, s) && (u, v) in net.links
    requires forall a, b {:trigger Held(net, s, a, b)} | (a, b) in net.links :: Held(net, s, a, b)
    ensures Exact(net, s, u, v)
    decreases |net.Behind(u, v)|
  {
    hide Tree.Valid, Network.Behind, Network.BitsOf, Network.TreePeersOf, Current, Horizon, Newest, Quiet, Outgoing;
    forall w | w in net.TreePeersOf(u) && w != v && (w, u) in net.links ensures Exact(net, s, w, u) {
      LessBehind(net, u, v, w);
      HeldIsExact(net, s, w, u);
    }
    OutgoingIsExact(net, s, u, v);
    LastSentIsOutgoing(net, s, u, v);
    assert Held(net, s, u, v);
  }

  /** The exact condition, after losses too: in a quiet state every filter is exact if and only if every
      receiver has the filter its sender recorded as sent. */
  lemma ExactIffHeld(net: Network, s: State)
    requires net.Valid() && Inv(net, s) && Quiet(net, s)
    ensures (forall u, v {:trigger Exact(net, s, u, v)} | (u, v) in net.links :: Exact(net, s, u, v))
            <==> forall u, v {:trigger Held(net, s, u, v)} | (u, v) in net.links :: Held(net, s, u, v)
  {
    hide Tree.Valid, Network.Behind, Network.BitsOf, Current, Horizon, Newest, Quiet;
    if forall u, v {:trigger Held(net, s, u, v)} | (u, v) in net.links :: Held(net, s, u, v) {
      forall u, v | (u, v) in net.links ensures Exact(net, s, u, v) {
        HeldIsExact(net, s, u, v);
      }
    }
    if forall u, v {:trigger Exact(net, s, u, v)} | (u, v) in net.links :: Exact(net, s, u, v) {
      forall u, v | (u, v) in net.links ensures Held(net, s, u, v) {
        OutgoingIsExact(net, s, u, v);
        LastSentIsOutgoing(net, s, u, v);
        assert Exact(net, s, u, v);
      }
    }
  }

  /** The same over whole runs, whatever they lose, repeat or reorder. */
  lemma QuietIsExactIff(net: Network, s: State, events: seq<Event>, end: State)
    requires net.Valid() && Init(net, s) && Run(net, s, events, end) && Quiet(net, end)
    ensures Shape(net, end)
    ensures (forall u, v {:trigger Exact(net, end, u, v)} | (u, v) in net.links :: Exact(net, end, u, v))
            <==> forall u, v {:trigger Held(net, end, u, v)} | (u, v) in net.links :: Held(net, end, u, v)
  {
    hide Tree.Valid, Network.Valid, Run, Init, Quiet, Exact, Held, Current, Horizon, Newest;
    InitInv(net, s);
    RunInv(net, s, events, end);
    ExactIffHeld(net, end);
  }

  /** In particular when every link's last announcement was stored. */
  lemma ExactWhenStored(net: Network, s: State, u: NodeAddr, v: NodeAddr)
    requires net.Valid() && Inv(net, s) && Quiet(net, s) && (u, v) in net.links
    requires forall a, b {:trigger Stored(net, s, a, b)} | (a, b) in net.links :: Stored(net, s, a, b)
    ensures u in s.nodes[v].peers
    ensures s.nodes[v].peers[u].inbound == Some(net.BitsOf(net.Behind(u, v)))
  {
    hide Tree.Valid, Network.Behind, Network.BitsOf, Current, Horizon, Newest, Quiet, Stored, Held;
    forall a, b | (a, b) in net.links ensures Held(net, s, a, b) {
      StoredIsHeld(net, s, a, b);
    }
    ExactIffHeld(net, s);
    assert Exact(net, s, u, v);
  }

  /** Convergence: once a run without losses is quiet, every node's filter from every peer holds exactly
      the entries of the nodes behind that peer, in whatever order announcements were delivered. */
  lemma QuietIsExact(net: Network, s: State, events: seq<Event>, end: State, u: NodeAddr, v: NodeAddr)
    requires net.Valid() && Init(net, s) && Run(net, s, events, end)
    requires forall e | e in events :: !e.Lose?
    requires Quiet(net, end) && (u, v) in net.links
    ensures v in end.nodes && u in end.nodes[v].peers
    ensures end.nodes[v].peers[u].inbound == Some(net.BitsOf(net.Behind(u, v)))
  {
    QuietIsStored(net, s, events, end);
    hide Tree.Valid, Network.BitsOf, Network.Behind, Run, Quiet, Init, Stored, Current, Horizon, Newest;
    ExactWhenStored(net, end, u, v);
  }

  lemma QuietIsStored(net: Network, s: State, events: seq<Event>, end: State)
    requires net.Valid() && Init(net, s) && Run(net, s, events, end)
    requires forall e | e in events :: !e.Lose?
    requires Quiet(net, end)
    ensures Inv(net, end)
    ensures forall a, b {:trigger Stored(net, end, a, b)} | (a, b) in net.links :: Stored(net, end, a, b)
  {
    hide Tree.Valid, Network.Valid, Network.BitsOf, Network.Behind, Run, UpToDate, Horizon;
    InitInv(net, s);
    RunInv(net, s, events, end);
    forall a, b | (a, b) in net.links ensures Stored(net, end, a, b) {
      RunArrives(net, s, events, end, a, b);
      SentWhenQuiet(net, end, a, b);
    }
  }

  lemma SentWhenQuiet(net: Network, s: State, a: NodeAddr, b: NodeAddr)
    requires net.Valid() && Inv(net, s) && Quiet(net, s) && (a, b) in net.links
    requires Arrives(net, s, a, b)
    ensures Stored(net, s, a, b)
  {
    assert Newest(net, s, a, b) && Newest(net, s, b, a);
    assert Current(net, s, a);
    hide Tree.Valid, Outgoing;
    assert s.nodes[a].peers.Keys == net.PeersOf(a);
    assert PeerUpToDate(net.base[a], net.TreePeersOf(a), s.nodes[a], b);
  }
}
