/**
  Announcements and forwarding together: once announcing is quiet, every packet reaches its destination.
*/
module Delivery {
  import opened Basics
  import opened SpanningTree
  import opened BloomGossip
  import opened BloomConvergence
  import opened Forwarding

  lemma {:induction false} BestExists(r: Router, candidates: set<NodeAddr>, dest: Coord)
      returns (best: Option<NodeAddr>)
    requires candidates <= r.peers.Keys
    ensures r.IsBest(candidates, dest, best)
    decreases |candidates|
  {
    hide Router.DistanceVia, Router.Eligible;
    if candidates == {} {
      best := None;
    } else {
      var c :| c in candidates;
      var rest := BestExists(r, candidates - {c}, dest);
      if r.Eligible(c, dest) && (rest.None? || (c in r.peers && r.Better(c, rest.value, dest))) {
        best := Some(c);
      } else {
        best := rest;
      }
      BestStep(r, candidates, c, dest, rest, best);
    }
  }

  lemma BestStep(r: Router, candidates: set<NodeAddr>, c: NodeAddr, dest: Coord, rest: Option<NodeAddr>,
      best: Option<NodeAddr>)
    requires candidates <= r.peers.Keys && c in candidates && r.IsBest(candidates - {c}, dest, rest)
    requires best == if r.Eligible(c, dest) && (rest.None? || r.Better(c, rest.value, dest)) then Some(c) else rest
    ensures r.IsBest(candidates, dest, best)
  {}

  /** A usable tree peer towards the destination whose filter names it is enough for a hop. */
  lemma HopFound(t: Tree, r: Router, dest: NodeAddr, w: NodeAddr) returns (hop: NodeAddr)
    requires t.Valid() && Agrees(t, r) && dest in t.nodes && dest != r.me
    requires dest in r.cache
    requires t.TreePeer(r.me, w) && dest in t.Side(w, r.me)
    requires r.Usable(w) && w in r.peerAncestry && w in r.Candidates(dest)
    ensures r.IsNextHop(dest, Some(hop))
  {
    hide Tree.Valid, Tree.CoordOf, Distance, Tree.Side;
    if r.Usable(dest) {
      hop := dest;
    } else {
      PeerStep(t, r.me, w, dest);
      assert r.Eligible(w, r.cache[dest]);
      var best := BestExists(r, r.Candidates(dest), r.cache[dest]);
      hop := best.value;
    }
  }

  /** The routers of a network whose filters are those of a state of the announcement protocol, with every
      tree link usable in both directions and the destination's coordinates known. */
  ghost predicate Mirrors(net: Network, s: State, routers: map<NodeAddr, Router>, dest: NodeAddr)
    requires net.Valid() && Shape(net, s) && dest in net.tree.nodes
  {
    && routers.Keys == net.tree.nodes
    && forall u {:trigger RouterMirrors(net, s, routers[u], u, dest)} | u in routers ::
         RouterMirrors(net, s, routers[u], u, dest)
  }

  ghost predicate RouterMirrors(net: Network, s: State, r: Router, u: NodeAddr, dest: NodeAddr)
    requires net.Valid() && Shape(net, s) && dest in net.tree.nodes && u in net.tree.nodes
  {
    && r.me == u && Agrees(net.tree, r) && LinksUp(net.tree, r)
    && dest in r.cache && r.bits(dest) <= net.base[dest]
    && forall p | p in r.peers :: p in s.nodes[u].peers && r.peers[p].inbound == s.nodes[u].peers[p].inbound
  }

  ghost predicate AllExact(net: Network, s: State)
    requires net.Valid() && Shape(net, s)
  {
    forall u, v {:trigger Exact(net, s, u, v)} | (u, v) in net.links :: Exact(net, s, u, v)
  }

  lemma ExactHop(net: Network, s: State, r: Router, u: NodeAddr, dest: NodeAddr) returns (hop: NodeAddr)
    requires net.Valid() && net.tree.Valid() && Shape(net, s) && AllExact(net, s)
    requires dest in net.tree.nodes && u in net.tree.nodes && u != dest && RouterMirrors(net, s, r, u, dest)
    ensures r.IsNextHop(dest, Some(hop)) && hop in net.tree.nodes
    ensures net.tree.Hops(hop, dest) < net.tree.Hops(u, dest)
  {
    hide Tree.Valid, Network.Valid, Shape, LinksUp, Tree.Side, Router.IsNextHop,
        Router.Candidates, Network.BitsOf, Network.Behind, Tree.CoordOf;
    var w := TowardsExists(net.tree, u, dest);
    TreeLink(net, u, w);
    assert Exact(net, s, w, u);
    NamedByPeer(net, s, r, u, w, dest);
    hop := HopFound(net.tree, r, dest, w);
    HopIsProgress(net.tree, r, dest, hop);
  }

  lemma TreeLink(net: Network, u: NodeAddr, w: NodeAddr)
    requires net.Valid() && net.tree.TreePeer(u, w)
    ensures net.tree.TreePeer(w, u) && (w, u) in net.links
  {}

  lemma NamedByPeer(net: Network, s: State, r: Router, u: NodeAddr, w: NodeAddr, dest: NodeAddr)
    requires net.Valid() && Shape(net, s) && dest in net.tree.nodes && u in net.tree.nodes
    requires RouterMirrors(net, s, r, u, dest)
    requires net.tree.TreePeer(u, w) && net.tree.TreePeer(w, u) && dest in net.tree.Side(w, u)
    requires w in s.nodes[u].peers && s.nodes[u].peers[w].inbound == Some(net.BitsOf(net.Behind(w, u)))
    ensures r.Usable(w) && w in r.peerAncestry && w in r.Candidates(dest)
  {
    hide Tree.Valid, Agrees, Shape, Tree.Side;
    assert r.Usable(w);
    forall i | i in r.bits(dest) ensures i in net.BitsOf(net.Behind(w, u)) {}
  }

  /** Delivery: in any state with exact filters a packet for any node follows a route that ends there and is
      no longer than the tree distance, whatever the link costs and other links are. */
  lemma ExactDelivers(net: Network, s: State, routers: map<NodeAddr, Router>, src: NodeAddr, dest: NodeAddr)
      returns (route: seq<Router>)
    requires net.Valid() && net.tree.Valid() && Shape(net, s) && AllExact(net, s)
    requires dest in net.tree.nodes && src in net.tree.nodes && Mirrors(net, s, routers, dest)
    ensures route != [] && route[0] == routers[src] && route[|route| - 1] == routers[dest]
    ensures Route(net.tree, dest, route) && |route| - 1 <= net.tree.Hops(src, dest)
  {
    hide Tree.Valid, Network.Valid, AllExact, Shape, Route, Tree.Hops, RouterMirrors;
    route := RouteFrom(net, s, routers, src, dest);
    assert route[0].me == src by {
      assert RouterMirrors(net, s, routers[src], src, dest);
      MeOf(net, s, routers[src], src, dest);
    }
    NoLoops(net.tree, dest, route);
  }

  /** So it does after a run without losses has become quiet. */
  lemma QuietDelivers(net: Network, s: State, events: seq<Event>, end: State, routers: map<NodeAddr, Router>,
                      src: NodeAddr, dest: NodeAddr) returns (route: seq<Router>)
    requires net.Valid() && net.tree.Valid() && Init(net, s) && Run(net, s, events, end) && Shape(net, end)
    requires (forall e | e in events :: !e.Lose?) && Quiet(net, end)
    requires dest in net.tree.nodes && src in net.tree.nodes && Mirrors(net, end, routers, dest)
    ensures route != [] && route[0] == routers[src] && route[|route| - 1] == routers[dest]
    ensures Route(net.tree, dest, route) && |route| - 1 <= net.tree.Hops(src, dest)
  {
    hide Tree.Valid, Network.Valid, Run, Init, Quiet, Shape, Route, Tree.Hops, Mirrors;
    forall u, v | (u, v) in net.links ensures Exact(net, end, u, v) {
      QuietIsExact(net, s, events, end, u, v);
    }
    route := ExactDelivers(net, end, routers, src, dest);
  }

  lemma MeOf(net: Network, s: State, r: Router, u: NodeAddr, dest: NodeAddr)
    requires net.Valid() && Shape(net, s) && dest in net.tree.nodes && u in net.tree.nodes
    requires RouterMirrors(net, s, r, u, dest)
    ensures r.me == u && Agrees(net.tree, r)
  {}

  lemma {:induction false} RouteFrom(net: Network, s: State, routers: map<NodeAddr, Router>, u: NodeAddr,
      dest: NodeAddr) returns (route: seq<Router>)
    requires net.Valid() && net.tree.Valid() && Shape(net, s) && AllExact(net, s)
    requires dest in net.tree.nodes && u in net.tree.nodes && Mirrors(net, s, routers, dest)
    ensures route != [] && route[0] == routers[u] && route[|route| - 1] == routers[dest]
    ensures Route(net.tree, dest, route)
    decreases net.tree.Hops(u, dest)
  {
    hide Tree.Valid, Network.Valid, AllExact, Shape, Route, Tree.Hops, RouterMirrors, Router.IsNextHop,
        Agrees;
    assert RouterMirrors(net, s, routers[u], u, dest);
    MeOf(net, s, routers[u], u, dest);
    if u == dest {
      route := [routers[u]];
      RouteOne(net.tree, dest, routers[u]);
    } else {
      var hop := ExactHop(net, s, routers[u], u, dest);
      assert RouterMirrors(net, s, routers[hop], hop, dest);
      MeOf(net, s, routers[hop], hop, dest);
      var rest := RouteFrom(net, s, routers, hop, dest);
      route := [routers[u]] + rest;
      RouteExtended(net.tree, dest, routers[u], rest);
    }
  }

  lemma RouteOne(t: Tree, dest: NodeAddr, r: Router)
    requires t.Valid() && Agrees(t, r)
    ensures Route(t, dest, [r])
  {}

  lemma RouteExtended(t: Tree, dest: NodeAddr, r: Router, rest: seq<Router>)
    requires t.Valid() && Agrees(t, r) && rest != [] && Route(t, dest, rest) && r.IsNextHop(dest, Some(rest[0].me))
    ensures Route(t, dest, [r] + rest)
  {
    hide Tree.Valid, Agrees, Router.IsNextHop;
    var route := [r] + rest;
    forall k | 0 <= k < |route| - 1 ensures route[k].IsNextHop(dest, Some(route[k + 1].me)) {
      if k > 0 {
        assert route[k] == rest[k - 1] && route[k + 1] == rest[k];
        assert k - 1 < |rest| - 1;
        assert rest[k - 1].IsNextHop(dest, Some(rest[k - 1 + 1].me));
      }
    }
  }
}
