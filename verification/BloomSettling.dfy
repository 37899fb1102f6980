/**
  Announcing settles: runs of sends and first deliveries are bounded in length, and one that cannot go on is
  quiet with exact filters.
*/
module BloomSettling {
  import opened Basics
  import opened SpanningTree
  import opened BloomGossip
  import opened BloomConvergence
  import opened BloomBound

  /** A successful send, or a delivery that takes its announcement off the wire. */
  predicate Plain(e: Event) {
    e.Send? || (e.Deliver? && !e.again)
  }

  ghost predicate AllPlain(events: seq<Event>) {
    forall e | e in events :: Plain(e)
  }

  /** Updates are pending for peers only. */
  ghost predicate OwesPeers(n: NodeState) {
    n.pending <= n.peers.Keys
  }

  ghost predicate AllOwePeers(s: State) {
    forall u {:trigger OwesPeers(s.nodes[u])} | u in s.nodes :: OwesPeers(s.nodes[u])
  }

  lemma NextOwes(net: Network, s: State, e: Event)
    requires net.Valid() && Shape(net, s) && Enabled(net, s, e) && AllOwePeers(s)
    ensures AllOwePeers(Next(net, s, e))
  {
    hide Tree.Valid, Network.Valid, Network.PeersOf, Network.TreePeersOf, Outgoing;
    var s' := Next(net, s, e);
    forall u | u in s'.nodes ensures OwesPeers(s'.nodes[u]) {
      assert u in s.nodes ==> OwesPeers(s.nodes[u]);
    }
  }

  lemma InitOwes(net: Network, s: State)
    requires net.Valid() && Init(net, s)
    ensures AllOwePeers(s)
  {
    hide Tree.Valid, Network.Valid, Network.PeersOf;
    forall u | u in s.nodes ensures OwesPeers(s.nodes[u]) {
      assert StartsFresh(net, s, u);
    }
  }

  lemma {:induction false} RunOwes(net: Network, s: State, events: seq<Event>, end: State)
    requires net.Valid() && Inv(net, s) && AllOwePeers(s) && Run(net, s, events, end)
    ensures AllOwePeers(end)
    decreases |events|
  {
    hide Tree.Valid, Network.Valid, Current, Horizon, Newest, Shape, Next, Enabled, AllOwePeers;
    if events != [] {
      NextOwes(net, s, events[0]);
      NextInv(net, s, events[0]);
      RunOwes(net, Next(net, s, events[0]), events[1..], end);
    }
  }

  /** A state is quiet exactly when no announcement can be sent or delivered. */
  lemma QuietIffStuck(net: Network, s: State)
    requires net.Valid() && Shape(net, s) && AllOwePeers(s)
    ensures Quiet(net, s) <==> forall e {:trigger Plain(e)} | Plain(e) :: !Enabled(net, s, e)
  {
    if Quiet(net, s) {
      QuietIsStuck(net, s);
    } else {
      var e := SomethingToDo(net, s);
      assert Plain(e);
    }
  }

  lemma QuietIsStuck(net: Network, s: State)
    requires net.Valid() && Shape(net, s) && Quiet(net, s)
    ensures forall e {:trigger Plain(e)} | Plain(e) :: !Enabled(net, s, e)
  {
    hide Tree.Valid, Network.Valid, Network.PeersOf;
  }

  lemma SomethingToDo(net: Network, s: State) returns (e: Event)
    requires net.Valid() && Shape(net, s) && AllOwePeers(s) && !Quiet(net, s)
    ensures Plain(e) && Enabled(net, s, e)
  {
    hide Tree.Valid;
    if l :| l in s.wires && s.wires[l] != {} {
      var m :| m in s.wires[l];
      e := Deliver(l.0, l.1, m, false);
    } else {
      var u :| u in s.nodes && s.nodes[u].pending != {};
      var v :| v in s.nodes[u].pending;
      assert OwesPeers(s.nodes[u]);
      assert s.nodes[u].peers.Keys == net.PeersOf(u);
      e := Send(u, v);
    }
  }

  // ----- counting -----

  function Delivers(events: seq<Event>, u: NodeAddr, v: NodeAddr): nat {
    if events == [] then 0
    else (if events[0].Deliver? && events[0].u == u && events[0].v == v then 1 else 0) + Delivers(events[1..], u, v)
  }

  /** The events that put something on or took something off one of these links. */
  function EventsOn(events: seq<Event>, links: set<Link>): nat {
    if events == [] then 0
    else
      var e := events[0];
      (if (e.Send? || e.Deliver?) && (e.u, e.v) in links then 1 else 0) + EventsOn(events[1..], links)
  }

  lemma {:induction false} EventsOnSplit(events: seq<Event>, links: set<Link>, l: Link)
    requires l in links
    ensures EventsOn(events, links)
            == EventsOn(events, links - {l}) + Sends(events, l.0, l.1) + Delivers(events, l.0, l.1)
  {
    if events != [] {
      EventsOnSplit(events[1..], links, l);
    }
  }

  lemma {:induction false} NothingOnNone(events: seq<Event>)
    ensures EventsOn(events, {}) == 0
  {
    if events != [] {
      NothingOnNone(events[1..]);
    }
  }

  /** The announcements a link can carry: one, and one more for each bit its receiver has to learn. */
  ghost function Carries(net: Network, l: Link): int
    requires net.Valid() && l in net.links
  {
    1 + |net.BitsOf(net.Behind(l.0, l.1))| - |net.base[l.0]|
  }

  ghost function AnyOf(links: set<Link>): Link
    requires links != {}
    ensures AnyOf(links) in links
  {
    var l :| l in links; l
  }

  /** The sum over these links. */
  ghost function CarriedBy(net: Network, links: set<Link>): int
    requires net.Valid() && links <= net.links
  {
    if links == {} then 0
    else
      var l := AnyOf(links);
      Carries(net, l) + CarriedBy(net, links - {l})
  }

  /** It is a sum: any of the links may be taken out first. */
  lemma {:induction false} CarriedBySplit(net: Network, links: set<Link>, l: Link)
    requires net.Valid() && links <= net.links && l in links
    ensures CarriedBy(net, links) == Carries(net, l) + CarriedBy(net, links - {l})
    decreases |links|
  {
    hide Tree.Valid, Network.Valid, Carries;
    var first := AnyOf(links);
    if first != l {
      CarriedBySplit(net, links - {first}, l);
      CarriedBySplit(net, links - {l}, first);
      assert links - {first} - {l} == links - {l} - {first};
    }
  }

  /** If each link sees at most twice what it can carry, so do the links together. */
  lemma {:induction false} EventsOnBounded(net: Network, events: seq<Event>, links: set<Link>)
    requires net.Valid() && links <= net.links
    requires forall l {:trigger Carries(net, l)} | l in links ::
               Sends(events, l.0, l.1) + Delivers(events, l.0, l.1) <= 2 * Carries(net, l)
    ensures EventsOn(events, links) <= 2 * CarriedBy(net, links)
    decreases |links|
  {
    hide Tree.Valid, Network.Valid, Carries;
    if links == {} {
      NothingOnNone(events);
    } else {
      var l := AnyOf(links);
      EventsOnBounded(net, events, links - {l});
      EventsOnSplit(events, links, l);
    }
  }

  /** On each link no more is delivered than was sent. */
  lemma {:induction false} DeliveredWasSent(net: Network, s: State, events: seq<Event>, end: State, u: NodeAddr,
      v: NodeAddr)
    requires net.Valid() && Inv(net, s) && Run(net, s, events, end) && AllPlain(events) && (u, v) in net.links
    ensures Inv(net, end)
    ensures |end.wires[(u, v)]| + Delivers(events, u, v) <= |s.wires[(u, v)]| + Sends(events, u, v)
    decreases |events|
  {
    hide Tree.Valid, Network.Valid, Current, Horizon, Newest, Next, Enabled;
    if events != [] {
      assert Plain(events[0]);
      NextInv(net, s, events[0]);
      WireStep(net, s, events[0], u, v);
      DeliveredWasSent(net, Next(net, s, events[0]), events[1..], end, u, v);
    }
  }

  lemma WireStep(net: Network, s: State, e: Event, u: NodeAddr, v: NodeAddr)
    requires net.Valid() && Shape(net, s) && Enabled(net, s, e) && Plain(e) && (u, v) in net.links
    ensures (u, v) in Next(net, s, e).wires
    ensures |Next(net, s, e).wires[(u, v)]| + Delivers([e], u, v) <= |s.wires[(u, v)]| + Sends([e], u, v)
  {
    hide Tree.Valid, Network.Valid, Network.PeersOf, Network.TreePeersOf, Outgoing, Receive;
    assert [e][1..] == [];
  }

  /** Every plain event of a run is on a link. */
  lemma {:induction false} AllOnLinks(net: Network, s: State, events: seq<Event>, end: State)
    requires net.Valid() && Inv(net, s) && Run(net, s, events, end) && AllPlain(events)
    ensures EventsOn(events, net.links) == |events|
    decreases |events|
  {
    hide Tree.Valid, Network.Valid, Current, Horizon, Newest, Next, Enabled;
    if events != [] {
      assert Plain(events[0]);
      NextInv(net, s, events[0]);
      LinkEnds(net, s, events[0]);
      AllOnLinks(net, Next(net, s, events[0]), events[1..], end);
    }
  }

  // ----- the bound -----

  /** Twice what all links together can carry. */
  ghost function Bound(net: Network): int
    requires net.Valid()
  {
    2 * CarriedBy(net, net.links)
  }

  lemma LinkBounded(net: Network, s: State, events: seq<Event>, end: State, u: NodeAddr, v: NodeAddr)
    requires net.Valid() && Init(net, s) && Run(net, s, events, end) && AllPlain(events) && (u, v) in net.links
    ensures Sends(events, u, v) + Delivers(events, u, v) <= 2 * Carries(net, (u, v))
  {
    hide Tree.Valid, Network.BitsOf, Network.Behind, Run, Horizon, Newest, Current, StartsFresh;
    InitInv(net, s);
    forall e | e in events ensures !e.Mark? { assert Plain(e); }
    NoUpdateStorm(net, s, events, end, u, v);
    DeliveredWasSent(net, s, events, end, u, v);
  }

  /** No run of sends and first deliveries is longer than the bound. */
  lemma RunsAreBounded(net: Network, s: State, events: seq<Event>, end: State)
    requires net.Valid() && Init(net, s) && Run(net, s, events, end) && AllPlain(events)
    ensures |events| <= Bound(net)
  {
    hide Tree.Valid, Network.Valid, Network.BitsOf, Run, Shape, Horizon, Newest, Current, Init, Carries;
    InitInv(net, s);
    AllOnLinks(net, s, events, end);
    forall l | l in net.links
      ensures Sends(events, l.0, l.1) + Delivers(events, l.0, l.1) <= 2 * Carries(net, l)
    {
      LinkBounded(net, s, events, end, l.0, l.1);
    }
    EventsOnBounded(net, events, net.links);
  }

  /** Every run of sends and first deliveries that cannot go on is quiet, and every filter is exact. */
  lemma StuckRunsAreExact(net: Network, s: State, events: seq<Event>, end: State, u: NodeAddr, v: NodeAddr)
    requires net.Valid() && Init(net, s) && Run(net, s, events, end) && AllPlain(events) && (u, v) in net.links
    requires forall e {:trigger Plain(e)} | Plain(e) :: !Enabled(net, end, e)
    ensures Quiet(net, end) && v in end.nodes && u in end.nodes[v].peers
    ensures end.nodes[v].peers[u].inbound == Some(net.BitsOf(net.Behind(u, v)))
  {
    hide Tree.Valid, Network.BitsOf, Network.Behind, Run, Init, Enabled, Quiet, Current, Horizon, Newest, AllOwePeers;
    InitInv(net, s);
    InitOwes(net, s);
    RunInv(net, s, events, end);
    RunOwes(net, s, events, end);
    QuietIffStuck(net, end);
    forall e | e in events ensures !e.Lose? { assert Plain(e); }
    QuietIsExact(net, s, events, end, u, v);
  }

  /** Any run of sends and first deliveries can be taken on to a quiet state, and however that is done it ends
      within the bound. */
  lemma {:induction false} Settles(net: Network, s: State, events: seq<Event>, now: State)
      returns (more: seq<Event>, end: State)
    requires net.Valid() && Init(net, s) && Run(net, s, events, now) && AllPlain(events)
    ensures Run(net, s, events + more, end) && AllPlain(events + more) && Quiet(net, end)
    ensures |events + more| <= Bound(net)
    decreases Bound(net) - |events|
  {
    hide Tree.Valid, Network.Valid, Bound, Run, Init, Inv, Quiet, AllOwePeers, Next, Enabled;
    RunsAreBounded(net, s, events, now);
    InitInv(net, s);
    InitOwes(net, s);
    RunInv(net, s, events, now);
    RunOwes(net, s, events, now);
    if Quiet(net, now) {
      more, end := [], now;
      assert events + more == events;
    } else {
      ShapeOf(net, now);
      var e := SomethingToDo(net, now);
      RunThen(net, s, events, now, e);
      var next := Next(net, now, e);
      assert AllPlain(events + [e]);
      RunsAreBounded(net, s, events + [e], next);
      var rest;
      rest, end := Settles(net, s, events + [e], next);
      more := [e] + rest;
      assert events + more == events + [e] + rest;
    }
  }

  lemma ShapeOf(net: Network, s: State)
    requires net.Valid() && Inv(net, s)
    ensures Shape(net, s) && s.nodes.Keys == net.tree.nodes
  {}

  lemma {:induction false} RunThen(net: Network, s: State, events: seq<Event>, now: State, e: Event)
    requires net.Valid() && Run(net, s, events, now) && now.nodes.Keys == net.tree.nodes && Enabled(net, now, e)
    ensures Run(net, s, events + [e], Next(net, now, e))
    decreases |events|
  {
    hide Tree.Valid, Network.Valid, Next, Enabled;
    var all := events + [e];
    if events == [] {
      assert all == [e] && all[1..] == [];
      assert Run(net, Next(net, now, e), [], Next(net, now, e));
    } else {
      RunThen(net, Next(net, s, events[0]), events[1..], now, e);
      assert all[0] == events[0] && all[1..] == events[1..] + [e];
    }
  }
}
