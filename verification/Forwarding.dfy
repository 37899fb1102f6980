/**
  Choice of the next hop for a packet, and what it gives over whole routes: no loops while nodes agree on
  coordinates, and exactly when a usable tree hop is passed over.
*/
module Forwarding {
  import opened Basics
  import opened SpanningTree
  import opened BloomGossip

  function Elements(s: seq<NodeAddr>): set<NodeAddr> {
    set x | x in s
  }

  datatype PeerInfo = PeerInfo(canSend: bool, linkCost: real, inbound: Option<Bits>)

  /** What one node looks at. `bits` gives the filter positions of an address. */
  datatype Router = Router(me: NodeAddr, myCoords: Coord, peers: map<NodeAddr, PeerInfo>,
                           peerAncestry: map<NodeAddr, Coord>, cache: map<NodeAddr, Coord>, bits: NodeAddr -> Bits) {

    predicate MayReach(p: NodeAddr, dest: NodeAddr)
      requires p in peers
    {
      peers[p].inbound.Some? && bits(dest) <= peers[p].inbound.value
    }

    function Candidates(dest: NodeAddr): set<NodeAddr> {
      set p | p in peers && MayReach(p, dest)
    }

    /** Unknown coordinates count as infinitely far. */
    function DistanceVia(p: NodeAddr, dest: Coord): nat {
      if p in peerAncestry then Distance(peerAncestry[p], dest) else USIZE_MAX
    }

    predicate Eligible(p: NodeAddr, dest: Coord) {
      p in peers && peers[p].canSend && DistanceVia(p, dest) < Distance(myCoords, dest)
    }

    /** Cheaper, else nearer, else of smaller address. */
    predicate Better(p: NodeAddr, q: NodeAddr, dest: Coord)
      requires p in peers && q in peers
    {
      || peers[p].linkCost < peers[q].linkCost
      || (peers[p].linkCost == peers[q].linkCost && DistanceVia(p, dest) < DistanceVia(q, dest))
      || (peers[p].linkCost == peers[q].linkCost && DistanceVia(p, dest) == DistanceVia(q, dest) && p < q)
    }

    ghost predicate IsBest(candidates: set<NodeAddr>, dest: Coord, hop: Option<NodeAddr>) {
      match hop
      case None => forall c | c in candidates :: !Eligible(c, dest)
      case Some(b) => b in candidates && Eligible(b, dest)
                      && forall c | c in candidates && Eligible(c, dest) && c != b :: Better(b, c, dest)
    }

    predicate Nearer(p: NodeAddr, q: NodeAddr, dest: Coord) {
      DistanceVia(p, dest) < DistanceVia(q, dest) || (DistanceVia(p, dest) == DistanceVia(q, dest) && p < q)
    }

    /** The greedy hop: of all peers with coordinates the nearest, and only if it is nearer than we are. */
    ghost predicate IsGreedy(dest: Coord, hop: Option<NodeAddr>) {
      match hop
      case None =>
        RootId(myCoords) != RootId(dest)
        || forall p | p in peerAncestry :: DistanceVia(p, dest) >= Distance(myCoords, dest)
      case Some(g) =>
        RootId(myCoords) == RootId(dest) && g in peerAncestry && DistanceVia(g, dest) < Distance(myCoords, dest)
        && forall p | p in peerAncestry && p != g :: Nearer(g, p, dest)
    }

    ghost predicate Usable(p: NodeAddr) {
      p in peers && peers[p].canSend
    }

    ghost predicate IsNextHop(dest: NodeAddr, hop: Option<NodeAddr>) {
      if dest == me then hop == None
      else if Usable(dest) then hop == Some(dest)
      else if dest !in cache then hop == None
      else if Candidates(dest) != {} then IsBest(Candidates(dest), cache[dest], hop)
      else
        match hop
        case Some(h) => IsGreedy(cache[dest], hop) && Usable(h)
        case None => IsGreedy(cache[dest], None) || exists g :: IsGreedy(cache[dest], Some(g)) && !Usable(g)
    }

    /** The loop over the candidates, in whatever order the peer table yields them. */
    method SelectBestCandidate(candidates: seq<NodeAddr>, dest: Coord) returns (best: Option<NodeAddr>)
      requires forall c | c in candidates :: c in peers
      ensures IsBest(Elements(candidates), dest, best)
    {
      var myDistance := Distance(myCoords, dest);
      best := None;
      var bestCost, bestDist := 0.0, 0;
      for i := 0 to |candidates|
        invariant IsBest(Elements(candidates[..i]), dest, best)
        invariant best.Some? ==> bestCost == peers[best.value].linkCost && bestDist == DistanceVia(best.value, dest)
      {
        var candidate := candidates[i];
        assert candidates[..i + 1] == candidates[..i] + [candidate];
        if !peers[candidate].canSend {
          continue;
        }
        var cost := peers[candidate].linkCost;
        var dist := DistanceVia(candidate, dest);
        if dist >= myDistance {
          continue;
        }
        var dominated := best.None? || cost < bestCost || (cost == bestCost && dist < bestDist)
                         || (cost == bestCost && dist == bestDist && candidate < best.value);
        if dominated {
          best, bestCost, bestDist := Some(candidate), cost, dist;
        }
      }
      assert candidates[..|candidates|] == candidates;
    }

    /** The loop over the peers with coordinates. */
    method GreedyNextHop(ancestry: seq<NodeAddr>, dest: Coord) returns (hop: Option<NodeAddr>)
      requires forall p :: p in ancestry <==> p in peerAncestry
      ensures IsGreedy(dest, hop)
    {
      if RootId(myCoords) != RootId(dest) {
        return None;
      }
      var best: Option<NodeAddr> := None;
      for i := 0 to |ancestry|
        invariant best.None? ==> i == 0
        invariant best.Some? ==> best.value in ancestry
                                 && forall p | p in ancestry[..i] && p != best.value :: Nearer(best.value, p, dest)
      {
        var p := ancestry[i];
        assert ancestry[..i + 1] == ancestry[..i] + [p];
        if best.None? || Nearer(p, best.value, dest) {
          best := Some(p);
        }
      }
      assert ancestry[..|ancestry|] == ancestry;
      hop := if best.Some? && DistanceVia(best.value, dest) < Distance(myCoords, dest) then best else None;
    }

    /** `peerOrder` and `ancestryOrder` are the orders in which the two tables happen to be walked. */
    method FindNextHop(dest: NodeAddr, peerOrder: seq<NodeAddr>, ancestryOrder: seq<NodeAddr>)
        returns (hop: Option<NodeAddr>)
      requires forall p :: p in peerOrder <==> p in peers
      requires forall p :: p in ancestryOrder <==> p in peerAncestry
      ensures IsNextHop(dest, hop)
    {
      if dest == me {
        return None;
      }
      if dest in peers && peers[dest].canSend {
        return Some(dest);
      }
      if dest !in cache {
        return None;
      }
      var destCoords := cache[dest];
      var candidates := DestinationInFilters(dest, peerOrder);
      if candidates != [] {
        assert candidates[0] in Candidates(dest);
        assert Elements(candidates) == Candidates(dest);
        hop := SelectBestCandidate(candidates, destCoords);
        return;
      }
      assert Candidates(dest) == {};
      hop := GreedyNextHop(ancestryOrder, destCoords);
      if hop.Some? && !(hop.value in peers && peers[hop.value].canSend) {
        hop := None;
      }
    }

    method DestinationInFilters(dest: NodeAddr, peerOrder: seq<NodeAddr>) returns (found: seq<NodeAddr>)
      requires forall p :: p in peerOrder <==> p in peers
      ensures forall p :: p in found <==> p in Candidates(dest)
    {
      found := [];
      for i := 0 to |peerOrder|
        invariant forall p :: p in found <==> p in peerOrder[..i] && MayReach(p, dest)
      {
        assert peerOrder[..i + 1] == peerOrder[..i] + [peerOrder[i]];
        if MayReach(peerOrder[i], dest) {
          found := found + [peerOrder[i]];
        }
      }
      assert peerOrder[..|peerOrder|] == peerOrder;
    }
  }

  /** There is exactly one answer: the order in which the tables are walked does not matter. */
  lemma NextHopUnique(r: Router, dest: NodeAddr, a: Option<NodeAddr>, b: Option<NodeAddr>)
    requires r.IsNextHop(dest, a) && r.IsNextHop(dest, b)
    ensures a == b
  {}

  // ----- which hop it is -----

  /** A packet for this node goes nowhere, one for a usable peer goes there, and without the destination's
      coordinates there is no other way. */
  lemma WithoutRouting(r: Router, dest: NodeAddr, hop: Option<NodeAddr>)
    requires dest == r.me || (dest in r.peers && r.peers[dest].canSend) || dest !in r.cache
    ensures r.IsNextHop(dest, hop)
            <==> hop == if dest != r.me && dest in r.peers && r.peers[dest].canSend then Some(dest) else None
  {}

  /** If the filter of some peer holds the destination, then so does that of the hop; only otherwise the
      hop is the greedy one. */
  lemma HopIsNamed(r: Router, dest: NodeAddr, h: NodeAddr)
    requires dest != r.me && !(dest in r.peers && r.peers[dest].canSend) && dest in r.cache
    requires r.IsNextHop(dest, Some(h))
    ensures (exists p | p in r.peers :: r.peers[p].inbound.Some? && r.bits(dest) <= r.peers[p].inbound.value) ==>
              h in r.peers && r.peers[h].inbound.Some? && r.bits(dest) <= r.peers[h].inbound.value
    ensures (forall p | p in r.peers :: r.peers[p].inbound.Some? ==> !(r.bits(dest) <= r.peers[p].inbound.value)) ==>
              r.IsGreedy(r.cache[dest], Some(h))
  {
    if p :| p in r.peers && r.peers[p].inbound.Some? && r.bits(dest) <= r.peers[p].inbound.value {
      assert p in r.Candidates(dest);
    } else {
      assert r.Candidates(dest) == {};
    }
  }

  /** If no filter holds the destination, a usable greedy hop is the answer, and there is none without. */
  lemma UnnamedIsGreedy(r: Router, dest: NodeAddr, hop: Option<NodeAddr>)
    requires dest != r.me && !(dest in r.peers && r.peers[dest].canSend) && dest in r.cache
    requires forall p | p in r.peers :: r.peers[p].inbound.Some? ==> !(r.bits(dest) <= r.peers[p].inbound.value)
    ensures hop.Some? ==> (r.IsNextHop(dest, hop) <==> r.IsGreedy(r.cache[dest], hop)
                                                       && hop.value in r.peers && r.peers[hop.value].canSend)
    ensures r.IsNextHop(dest, None)
            <==> r.IsGreedy(r.cache[dest], None)
                 || exists g :: r.IsGreedy(r.cache[dest], Some(g)) && !(g in r.peers && r.peers[g].canSend)
  {
    assert r.Candidates(dest) == {};
  }

  /** If some filter does, the hop is, of the peers whose filter holds the destination and that are usable
      and strictly nearer to it, the first in the order of link cost, distance and address. */
  lemma NamedIsFirst(r: Router, dest: NodeAddr, h: NodeAddr)
    requires dest != r.me && !(dest in r.peers && r.peers[dest].canSend) && dest in r.cache
    requires exists p | p in r.peers :: r.peers[p].inbound.Some? && r.bits(dest) <= r.peers[p].inbound.value
    requires Distance(r.myCoords, r.cache[dest]) <= USIZE_MAX
    ensures r.IsNextHop(dest, Some(h))
            <==> Offers(r, dest, h)
                 && forall c | Offers(r, dest, c) ::
                      var near := Distance(r.peerAncestry[h], r.cache[dest]);
                      var far := Distance(r.peerAncestry[c], r.cache[dest]);
                      && r.peers[h].linkCost <= r.peers[c].linkCost
                      && (r.peers[h].linkCost == r.peers[c].linkCost ==> near <= far)
                      && (r.peers[h].linkCost == r.peers[c].linkCost && near == far ==> h <= c)
    ensures r.IsNextHop(dest, None) <==> forall c :: !Offers(r, dest, c)
  {
    hide Distance;
    var p :| p in r.peers && r.peers[p].inbound.Some? && r.bits(dest) <= r.peers[p].inbound.value;
    assert p in r.Candidates(dest);
    forall c ensures Offers(r, dest, c) <==> c in r.Candidates(dest) && r.Eligible(c, r.cache[dest]) {}
  }

  /** A peer whose filter holds the destination, that can be sent to and is known to be nearer. */
  predicate Offers(r: Router, dest: NodeAddr, c: NodeAddr)
    requires dest in r.cache
  {
    && c in r.peers && r.peers[c].canSend
    && r.peers[c].inbound.Some? && r.bits(dest) <= r.peers[c].inbound.value
    && c in r.peerAncestry
    && Distance(r.peerAncestry[c], r.cache[dest]) < Distance(r.myCoords, r.cache[dest])
  }

  /** The greedy hop is the peer in the destination's tree that is nearest to it, the first by address among
      equals, if it is nearer than this node. */
  lemma GreedyIsNearest(r: Router, dest: Coord, g: NodeAddr)
    ensures r.IsGreedy(dest, Some(g))
            <==> r.myCoords[|r.myCoords| - 1] == dest[|dest| - 1] && g in r.peerAncestry
                 && Distance(r.peerAncestry[g], dest) < Distance(r.myCoords, dest)
                 && forall p | p in r.peerAncestry ::
                      && Distance(r.peerAncestry[g], dest) <= Distance(r.peerAncestry[p], dest)
                      && (Distance(r.peerAncestry[g], dest) == Distance(r.peerAncestry[p], dest) ==> g <= p)
    ensures r.IsGreedy(dest, None)
            <==> (r.myCoords[|r.myCoords| - 1] == dest[|dest| - 1] ==>
                    forall p | p in r.peerAncestry :: Distance(r.myCoords, dest) <= Distance(r.peerAncestry[p], dest))
  {
    hide Distance;
  }

  // ----- routes under agreed coordinates -----

  /** Every coordinate this node uses is the one in the tree, whose distances fit the machine word. */
  ghost predicate Agrees(t: Tree, r: Router)
    requires t.Valid()
  {
    && r.me in t.nodes && r.myCoords == t.CoordOf(r.me)
    && (forall p | p in r.peers :: p in t.nodes && p != r.me)
    && (forall p | p in r.peerAncestry :: p in t.nodes && r.peerAncestry[p] == t.CoordOf(p))
    && (forall d | d in r.cache :: d in t.nodes && r.cache[d] == t.CoordOf(d))
    && forall d {:trigger t.Hops(r.me, d)} | d in t.nodes :: t.Hops(r.me, d) < USIZE_MAX
  }

  /** Every hop brings the packet strictly nearer to its destination in the tree. */
  lemma HopIsProgress(t: Tree, r: Router, dest: NodeAddr, hop: NodeAddr)
    requires t.Valid() && Agrees(t, r) && dest in t.nodes && r.IsNextHop(dest, Some(hop))
    ensures hop in r.peers && hop in t.nodes && t.Hops(hop, dest) < t.Hops(r.me, dest)
  {
    hide Tree.Valid, Tree.CoordOf, Distance;
    if r.Usable(dest) {
      HopsZero(t, r.me, dest);
      HopsZero(t, dest, dest);
    }
  }

  /** A packet's way: each entry is the state of the node it is at, at the moment it is there. Filters,
      costs and caches may change in between; only coordinates agree throughout. */
  ghost predicate Route(t: Tree, dest: NodeAddr, route: seq<Router>)
    requires t.Valid()
  {
    && (forall k | 0 <= k < |route| :: Agrees(t, route[k]))
    && forall k | 0 <= k < |route| - 1 :: route[k].IsNextHop(dest, Some(route[k + 1].me))
  }

  lemma {:induction false} RouteDescends(t: Tree, dest: NodeAddr, route: seq<Router>, i: nat, j: nat)
    requires t.Valid() && dest in t.nodes && Route(t, dest, route) && i <= j < |route|
    ensures route[i].me in t.nodes && route[j].me in t.nodes
    ensures t.Hops(route[j].me, dest) + (j - i) <= t.Hops(route[i].me, dest)
    decreases j - i
  {
    hide Tree.Valid, Tree.Hops, Router.IsNextHop;
    assert Agrees(t, route[i]);
    if i < j {
      assert route[i].IsNextHop(dest, Some(route[i + 1].me));
      HopIsProgress(t, route[i], dest, route[i + 1].me);
      RouteDescends(t, dest, route, i + 1, j);
    }
  }

  /** Loop freedom: no packet visits a node twice, and its way is no longer than the tree distance. */
  lemma NoLoops(t: Tree, dest: NodeAddr, route: seq<Router>)
    requires t.Valid() && dest in t.nodes && route != [] && Route(t, dest, route)
    ensures route[0].me in t.nodes && |route| - 1 <= t.Hops(route[0].me, dest)
    ensures forall i, j | 0 <= i < j < |route| :: route[i].me != route[j].me
  {
    hide Tree.Valid, Tree.Hops, Route;
    RouteDescends(t, dest, route, 0, |route| - 1);
    forall i, j | 0 <= i < j < |route| ensures route[i].me != route[j].me {
      RouteDescends(t, dest, route, i, j);
    }
  }

  // ----- when a hop is found -----

  /** Every tree peer is usable and its coordinates are known. */
  ghost predicate LinksUp(t: Tree, r: Router)
    requires t.Valid()
  {
    forall p | t.TreePeer(r.me, p) :: r.Usable(p) && p in r.peerAncestry
  }

  /** If some node's filters name a destination but none of those peers is usable and nearer, the greedy
      hop is not tried: with the greedy hop usable, a route is refused exactly then. */
  lemma RefusedIff(r: Router, dest: NodeAddr, g: NodeAddr)
    requires dest != r.me && !r.Usable(dest) && dest in r.cache
    requires r.IsGreedy(r.cache[dest], Some(g)) && r.Usable(g)
    ensures r.IsNextHop(dest, None)
            <==> r.Candidates(dest) != {} && forall c | c in r.Candidates(dest) :: !r.Eligible(c, r.cache[dest])
  {}

  /** Two positions for each address. */
  function TwoPositions(a: NodeAddr): set<nat> {
    {a % 5, 5 + a / 5}
  }

  /** A usable, nearer greedy hop (the root, 0) is passed over because a farther peer (3) seems to reach 2: its
      filter holds 3 and 7, whose positions happen to include those of 2. */
  lemma RefusedExample() returns (r: Router)
    ensures r.me == 1 && 2 in r.cache && r.IsGreedy(r.cache[2], Some(0)) && r.Usable(0)
    ensures r.IsNextHop(2, None)
    ensures r.bits == TwoPositions && 3 in r.peers && r.peers[3].inbound == Some(r.bits(3) + r.bits(7))
  {
    var c0: Coord, c1: Coord, c2: Coord, c3: Coord := [0], [1, 0], [2, 0], [3, 1, 0];
    var far := TwoPositions(3) + TwoPositions(7);
    r := Router(1, c1, map[0 := PeerInfo(true, 1.0, None), 3 := PeerInfo(true, 1.0, Some(far))],
                map[0 := c0, 3 := c3], map[2 := c2], TwoPositions);
    assert FromEnd(c1, 2) == 1 && FromEnd(c2, 2) == 2 && FromEnd(c3, 2) == 1;
    CommonIs(c0, c2, 1);
    CommonIs(c1, c2, 1);
    CommonIs(c3, c2, 1);
    assert r.DistanceVia(0, c2) == 1 && r.DistanceVia(3, c2) == 3 && Distance(c1, c2) == 2;
    assert 3 in r.Candidates(2) && r.Candidates(2) == {3};
  }
}
