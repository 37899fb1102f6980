/**
  The spanning tree: coordinates as paths from a node to the root, the distance the routing code computes from
  the common end of two such paths, and the two sides of a tree link.
*/
module SpanningTree {
  import opened Basics

  const USIZE_MAX: nat := 0xFFFF_FFFF_FFFF_FFFF

  function RootId(c: Coord): NodeAddr {
    c[|c| - 1]
  }

  function Depth(c: Coord): nat {
    |c| - 1
  }

  /** The entry `k` places from the end, the last one being at 1. */
  function FromEnd(a: seq<NodeAddr>, k: nat): NodeAddr
    requires 1 <= k <= |a|
  {
    a[|a| - k]
  }

  /** Length of the common end of two paths. */
  function Common(a: seq<NodeAddr>, b: seq<NodeAddr>): (n: nat)
    ensures n <= |a| && n <= |b|
  {
    if a == [] || b == [] || a[|a| - 1] != b[|b| - 1] then 0
    else 1 + Common(a[..|a| - 1], b[..|b| - 1])
  }

  /** `n` is the common end exactly when the last `n` entries agree and the ones before do not. */
  lemma {:induction false} CommonIs(a: seq<NodeAddr>, b: seq<NodeAddr>, n: nat)
    requires n <= |a| && n <= |b|
    requires forall k | 1 <= k <= n :: FromEnd(a, k) == FromEnd(b, k)
    requires n == |a| || n == |b| || FromEnd(a, n + 1) != FromEnd(b, n + 1)
    ensures Common(a, b) == n
  {
    if n > 0 {
      assert FromEnd(a, 1) == FromEnd(b, 1);
      var a', b' := a[..|a| - 1], b[..|b| - 1];
      forall k | 1 <= k <= n - 1 ensures FromEnd(a', k) == FromEnd(b', k) {
        assert FromEnd(a, k + 1) == FromEnd(b, k + 1);
      }
      CommonIs(a', b', n - 1);
    }
  }

  lemma {:induction false} CommonAgrees(a: seq<NodeAddr>, b: seq<NodeAddr>, k: nat)
    requires 1 <= k <= Common(a, b)
    ensures FromEnd(a, k) == FromEnd(b, k)
  {
    if k > 1 {
      CommonAgrees(a[..|a| - 1], b[..|b| - 1], k - 1);
    }
  }

  lemma {:induction false} CommonStops(a: seq<NodeAddr>, b: seq<NodeAddr>)
    ensures var n := Common(a, b);
            n == |a| || n == |b| || FromEnd(a, n + 1) != FromEnd(b, n + 1)
    decreases |a|
  {
    if a != [] && b != [] && a[|a| - 1] == b[|b| - 1] {
      var a', b' := a[..|a| - 1], b[..|b| - 1];
      CommonStops(a', b');
      var m := Common(a', b');
      if m < |a'| && m < |b'| {
        assert FromEnd(a', m + 1) == FromEnd(a, m + 2) && FromEnd(b', m + 1) == FromEnd(b, m + 2);
      }
    }
  }

  /** Depth, counted from the root, of the lowest common ancestor. */
  function LcaDepth(a: Coord, b: Coord): nat {
    var common := Common(a, b);
    if common == 0 then 0 else common - 1
  }

  /** The loop of the routing code: walk both paths from their root ends while they agree. */
  method ComputeLcaDepth(a: Coord, b: Coord) returns (depth: nat)
    ensures depth == LcaDepth(a, b)
  {
    var common := 0;
    while common < |a| && common < |b| && a[|a| - common - 1] == b[|b| - common - 1]
      invariant common <= |a| && common <= |b|
      invariant forall k | 1 <= k <= common :: FromEnd(a, k) == FromEnd(b, k)
    {
      common := common + 1;
    }
    CommonIs(a, b, common);
    depth := if common == 0 then 0 else common - 1;
  }

  /** Hops through the lowest common ancestor; infinite between different trees. */
  function Distance(a: Coord, b: Coord): nat {
    if RootId(a) != RootId(b) then USIZE_MAX
    else
      (Depth(a) - LcaDepth(a, b)) + (Depth(b) - LcaDepth(a, b))
  }

  /** Paths to one root are as far apart as the steps from both to where they join: the entries of both that
      are not in the common end. Paths to different roots are infinitely far apart. */
  lemma DistanceIs(a: Coord, b: Coord, n: nat)
    requires n <= |a| && n <= |b| && a[|a| - n..] == b[|b| - n..]
    requires n == |a| || n == |b| || a[|a| - n - 1] != b[|b| - n - 1]
    ensures Distance(a, b) == if n == 0 then USIZE_MAX else (|a| - n) + (|b| - n)
    ensures Distance(b, a) == Distance(a, b)
    ensures LcaDepth(a, b) == if n == 0 then 0 else n - 1
  {
    forall k | 1 <= k <= n ensures FromEnd(a, k) == FromEnd(b, k) {
      assert FromEnd(a, k) == a[|a| - n..][n - k] && FromEnd(b, k) == b[|b| - n..][n - k];
    }
    CommonIs(a, b, n);
    CommonIs(b, a, n);
    if n > 0 {
      assert FromEnd(a, 1) == FromEnd(b, 1);
    }
  }

  // ----- one tree that all nodes agree on -----

  datatype Tree = Tree(nodes: set<NodeAddr>, root: NodeAddr, parent: map<NodeAddr, NodeAddr>,
                       height: map<NodeAddr, nat>) {

    /** Parents lead to the root, one level at a time. */
    ghost predicate Valid() {
      && root in nodes
      && parent.Keys == nodes && height.Keys == nodes
      && parent[root] == root && height[root] == 0
      && forall n {:trigger Hangs(n)} | n in nodes && n != root :: Hangs(n)
    }

    /** A node other than the root is one level below its parent. */
    ghost predicate Hangs(n: NodeAddr) {
      n in parent && parent[n] in nodes && n in height && parent[n] in height && height[n] == height[parent[n]] + 1
    }

    /** A node is a tree peer if it is our parent or declares us as its parent. The root declares itself
        as its own parent, which makes no link. */
    ghost predicate TreePeer(me: NodeAddr, peer: NodeAddr)
      requires Valid()
    {
      me in nodes && peer in nodes && me != peer && (parent[me] == peer || parent[peer] == me)
    }

    /** The coordinate of a node. */
    ghost function CoordOf(n: NodeAddr): Coord
      requires Valid() && n in nodes
      decreases height[n]
    {
      if n == root then [n] else assert Hangs(n); [n] + CoordOf(parent[n])
    }

    /** Is `a` on the path from `n` to the root? */
    ghost predicate IsAncestor(a: NodeAddr, n: NodeAddr)
      requires Valid() && n in nodes
      decreases height[n]
    {
      a == n || (n != root && assert Hangs(n); IsAncestor(a, parent[n]))
    }

    ghost function Subtree(a: NodeAddr): set<NodeAddr>
      requires Valid()
    {
      set n | n in nodes && IsAncestor(a, n)
    }

    /** The nodes on `u`'s side of the tree link between `u` and `v`. */
    ghost function Side(u: NodeAddr, v: NodeAddr): set<NodeAddr>
      requires Valid() && TreePeer(u, v)
    {
      if u != root && parent[u] == v then Subtree(u) else nodes - Subtree(v)
    }

    /** Hops between two nodes of the tree. */
    ghost function Hops(a: NodeAddr, b: NodeAddr): nat
      requires Valid() && a in nodes && b in nodes
    {
      Distance(CoordOf(a), CoordOf(b))
    }
  }

  lemma {:induction false} CoordShape(t: Tree, n: NodeAddr)
    requires t.Valid() && n in t.nodes
    ensures |t.CoordOf(n)| == t.height[n] + 1
    ensures t.CoordOf(n)[0] == n && RootId(t.CoordOf(n)) == t.root
    decreases t.height[n]
  {
    if n != t.root {
      assert t.Hangs(n);
      CoordShape(t, t.parent[n]);
    }
  }

  /** Entry `k` of a coordinate starts the coordinate of that ancestor. */
  lemma {:induction false} CoordTail(t: Tree, n: NodeAddr, k: nat)
    requires t.Valid() && n in t.nodes && k < |t.CoordOf(n)|
    ensures t.CoordOf(n)[k] in t.nodes && t.CoordOf(n)[k..] == t.CoordOf(t.CoordOf(n)[k])
    decreases t.height[n]
  {
    if k > 0 {
      assert t.Hangs(n);
      CoordTail(t, t.parent[n], k - 1);
      assert t.CoordOf(n)[k..] == t.CoordOf(t.parent[n])[k - 1..];
    }
  }

  lemma {:induction false} AncestorEntry(t: Tree, a: NodeAddr, n: NodeAddr)
    requires t.Valid() && n in t.nodes
    ensures t.IsAncestor(a, n) <==> a in t.CoordOf(n)
    decreases t.height[n]
  {
    if n != t.root {
      assert t.Hangs(n);
      AncestorEntry(t, a, t.parent[n]);
    }
  }

  lemma {:induction false} AncestorHeight(t: Tree, a: NodeAddr, n: NodeAddr)
    requires t.Valid() && n in t.nodes && t.IsAncestor(a, n)
    ensures a in t.nodes && t.height[a] <= t.height[n]
    ensures t.height[a] == t.height[n] ==> a == n
    decreases t.height[n]
  {
    if a != n {
      assert t.Hangs(n);
      AncestorHeight(t, a, t.parent[n]);
    }
  }

  /** The common end of two coordinates is at least a whole coordinate exactly under an ancestor. */
  lemma CommonCovers(t: Tree, a: NodeAddr, d: NodeAddr)
    requires t.Valid() && a in t.nodes && d in t.nodes
    ensures t.IsAncestor(a, d) <==> Common(t.CoordOf(a), t.CoordOf(d)) == |t.CoordOf(a)|
  {
    hide Tree.Valid, Tree.CoordOf, Tree.IsAncestor, Common;
    var ca, cd := t.CoordOf(a), t.CoordOf(d);
    AncestorEntry(t, a, d);
    CoordShape(t, a);
    if Common(ca, cd) == |ca| {
      CommonAgrees(ca, cd, |ca|);
      assert ca[0] in cd;
    }
    if a in cd {
      var k :| 0 <= k < |cd| && cd[k] == a;
      CoordTail(t, d, k);
      SuffixIsCommon(ca, cd, k);
    }
  }

  lemma SuffixIsCommon(ca: seq<NodeAddr>, cd: seq<NodeAddr>, k: nat)
    requires k <= |cd| && cd[k..] == ca
    ensures Common(ca, cd) == |ca|
  {}

  /** Stepping from a child to its parent gains a hop towards everything outside the child's subtree and
      loses one towards everything inside. */
  lemma ParentStep(t: Tree, c: NodeAddr, d: NodeAddr)
    requires t.Valid() && c in t.nodes && d in t.nodes && c != t.root
    ensures t.Hangs(c)
    ensures d in t.Subtree(c) ==> t.Hops(t.parent[c], d) == t.Hops(c, d) + 1
    ensures d !in t.Subtree(c) ==> t.Hops(c, d) == t.Hops(t.parent[c], d) + 1
  {
    assert t.Hangs(c);
    var p := t.parent[c];
    var cc, cp, cd := t.CoordOf(c), t.CoordOf(p), t.CoordOf(d);
    CoordShape(t, c); CoordShape(t, p); CoordShape(t, d);
    CommonCovers(t, c, d);
    CommonCovers(t, p, d);
    CommonPositive(cp, cd);
    CommonPositive(cc, cd);
    if t.IsAncestor(c, d) {
      AncestorUp(t, c, d);
    } else {
      CommonWithoutHead(c, cp, cd);
    }
  }

  /** An extra first entry that is not in the common end does not change it. */
  lemma CommonWithoutHead(c: NodeAddr, cp: seq<NodeAddr>, cd: seq<NodeAddr>)
    requires Common([c] + cp, cd) <= |cp|
    ensures Common([c] + cp, cd) == Common(cp, cd)
  {
    var cc := [c] + cp;
    var n := Common(cc, cd);
    forall k | 1 <= k <= n ensures FromEnd(cp, k) == FromEnd(cd, k) {
      CommonAgrees(cc, cd, k);
    }
    CommonStops(cc, cd);
    CommonIs(cp, cd, n);
  }

  lemma CommonPositive(a: Coord, b: Coord)
    requires RootId(a) == RootId(b)
    ensures Common(a, b) > 0
  {}

  lemma {:induction false} AncestorUp(t: Tree, c: NodeAddr, d: NodeAddr)
    requires t.Valid() && c in t.nodes && d in t.nodes && c != t.root && t.IsAncestor(c, d)
    ensures t.IsAncestor(t.parent[c], d)
    decreases t.height[d]
  {
    assert t.Hangs(c);
    if c != d {
      assert t.Hangs(d);
      AncestorUp(t, c, t.parent[d]);
    }
  }

  /** The computed distance is a distance: zero exactly between a node and itself. */
  lemma HopsZero(t: Tree, a: NodeAddr, b: NodeAddr)
    requires t.Valid() && a in t.nodes && b in t.nodes
    ensures t.Hops(a, b) == 0 <==> a == b
  {
    var ca, cb := t.CoordOf(a), t.CoordOf(b);
    CoordShape(t, a); CoordShape(t, b);
    CommonPositive(ca, cb);
    if a == b {
      CommonIs(ca, cb, |ca|);
    } else if t.Hops(a, b) == 0 {
      CommonAgrees(ca, cb, |ca|);
    }
  }

  /** A tree peer is exactly one hop nearer to its own side and one hop farther from ours. */
  lemma PeerStep(t: Tree, me: NodeAddr, peer: NodeAddr, d: NodeAddr)
    requires t.Valid() && t.TreePeer(me, peer) && d in t.nodes
    ensures d in t.Side(peer, me) ==> t.Hops(me, d) == t.Hops(peer, d) + 1
    ensures d !in t.Side(peer, me) ==> t.Hops(peer, d) == t.Hops(me, d) + 1
  {
    if me != t.root && t.parent[me] == peer {
      ParentStep(t, me, d);
      NoMutualParents(t, me, peer);
    } else {
      ParentStep(t, peer, d);
    }
  }

  lemma NoMutualParents(t: Tree, a: NodeAddr, b: NodeAddr)
    requires t.Valid() && a in t.nodes && b in t.nodes && a != t.root && t.parent[a] == b
    ensures t.Hangs(a) && (b == t.root || (t.Hangs(b) && t.parent[b] != a))
  {}

  /** A link splits the tree: each node is on exactly one side, and each end on its own. */
  lemma SidesSplit(t: Tree, u: NodeAddr, v: NodeAddr)
    requires t.Valid() && t.TreePeer(u, v)
    ensures t.Side(u, v) !! t.Side(v, u)
    ensures t.Side(u, v) + t.Side(v, u) == t.nodes
    ensures u in t.Side(u, v) && v in t.Side(v, u)
  {
    if u != t.root && t.parent[u] == v {
      NoMutualParents(t, u, v);
      if t.IsAncestor(u, v) {
        AncestorHeight(t, u, v);
      }
    } else {
      NoMutualParents(t, v, u);
      if t.IsAncestor(v, u) {
        AncestorHeight(t, v, u);
      }
    }
  }

  /** The tree peer through which the tree path from `me` to `d` leaves. */
  lemma {:induction false} TowardsExists(t: Tree, me: NodeAddr, d: NodeAddr) returns (w: NodeAddr)
    requires t.Valid() && me in t.nodes && d in t.nodes && me != d
    ensures t.TreePeer(me, w) && d in t.Side(w, me)
  {
    if t.IsAncestor(me, d) {
      w := ChildTowards(t, me, d);
    } else {
      RootAbove(t, d);
      assert t.Hangs(me);
      w := t.parent[me];
      NoMutualParents(t, me, w);
    }
  }

  lemma {:induction false} RootAbove(t: Tree, d: NodeAddr)
    requires t.Valid() && d in t.nodes
    ensures t.IsAncestor(t.root, d)
    decreases t.height[d]
  {
    if d != t.root {
      assert t.Hangs(d);
      RootAbove(t, t.parent[d]);
    }
  }

  lemma {:induction false} ChildTowards(t: Tree, me: NodeAddr, d: NodeAddr) returns (w: NodeAddr)
    requires t.Valid() && me in t.nodes && d in t.nodes && me != d && t.IsAncestor(me, d)
    ensures w in t.nodes && w != t.root && t.parent[w] == me && t.IsAncestor(w, d)
    ensures t.TreePeer(me, w) && d in t.Side(w, me)
    decreases t.height[d]
  {
    assert t.Hangs(d);
    if t.parent[d] == me {
      w := d;
    } else {
      w := ChildTowards(t, me, t.parent[d]);
    }
  }

  /** Split horizon on nodes: seen from `u`, the side towards `v` is `u` and the sides behind its other
      tree peers. */
  lemma SideDecomposed(t: Tree, u: NodeAddr, v: NodeAddr, d: NodeAddr)
    requires t.Valid() && t.TreePeer(u, v)
    ensures d in t.Side(u, v) <==>
              d == u || exists w | t.TreePeer(u, w) && w != v :: d in t.Side(w, u)
  {
    SidesSplit(t, u, v);
    if d in t.Side(u, v) && d != u {
      var w := TowardsExists(t, u, d);
      assert w != v;
    }
    if w :| t.TreePeer(u, w) && w != v && d in t.Side(w, u) {
      SidesSplit(t, u, w);
      PeerStep(t, u, w, d);
      if d in t.Side(v, u) {
        OnlyOneTowards(t, u, v, w, d);
      }
    }
  }

  /** At most one tree peer leads to a given node. */
  lemma OnlyOneTowards(t: Tree, u: NodeAddr, v: NodeAddr, w: NodeAddr, d: NodeAddr)
    requires t.Valid() && t.TreePeer(u, v) && t.TreePeer(u, w)
    requires d in t.Side(v, u) && d in t.Side(w, u)
    ensures v == w
  {
    if u != t.root && t.parent[u] == v {
      NoMutualParents(t, u, v);
      if w != v {
        AncestorUp(t, w, d);
      }
    } else if u != t.root && t.parent[u] == w {
      NoMutualParents(t, u, w);
      AncestorUp(t, v, d);
    } else {
      assert t.Hangs(v) && t.Hangs(w);
      SameHeightAncestor(t, v, w, d);
    }
  }

  lemma {:induction false} SameHeightAncestor(t: Tree, a: NodeAddr, b: NodeAddr, d: NodeAddr)
    requires t.Valid() && d in t.nodes && t.IsAncestor(a, d) && t.IsAncestor(b, d)
    requires a in t.nodes && b in t.nodes && t.height[a] == t.height[b]
    ensures a == b
    decreases t.height[d]
  {
    AncestorHeight(t, a, d);
    AncestorHeight(t, b, d);
    if a != d && b != d {
      assert t.Hangs(d);
      SameHeightAncestor(t, a, b, t.parent[d]);
    }
  }
}
