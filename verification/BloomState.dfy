/**
  The announcement state of one node, as the object a node keeps: what is pending, what was last sent
  to whom and when, and the sequence number. Filters are proved against the sets of bits they hold.
*/
module BloomState {
  import opened Basics
  import opened Words
  import opened BloomFilter

  /** An announcement as decoded from the wire. */
  datatype FilterAnnounce = FilterAnnounce(filter: Filter, sequence: nat, hashCount: nat, sizeClass: nat) {
    predicate IsValid() {
      |filter.bits| == 512 * Pow2(sizeClass) && filter.hashCount == hashCount
    }

    predicate IsV1Compliant() {
      sizeClass == 1
    }
  }

  /** A valid announcement has the size of its class; of the four classes the first version takes the second. */
  lemma SizeOfClass(a: FilterAnnounce)
    requires a.sizeClass < 4
    ensures a.IsValid() <==> a.filter.hashCount == a.hashCount
                             && |a.filter.bits| == [512, 1024, 2048, 4096][a.sizeClass]
    ensures a.IsV1Compliant() <==> [512, 1024, 2048, 4096][a.sizeClass] == 1024
  {
    assert Pow2(0) == 1 && Pow2(1) == 2 && Pow2(2) == 4 && Pow2(3) == 8;
  }

  /** The bits of one address under the default parameters. */
  function AddrBits(sha: Sha, a: NodeAddr): set<nat> {
    Positions(sha(a), DEFAULT_HASH_COUNT, DEFAULT_FILTER_SIZE_BITS)
  }

  /** The bits a node always announces: its own and those of its leaf dependents. */
  ghost function BaseBits(sha: Sha, own: NodeAddr, dependents: set<NodeAddr>): set<nat> {
    AddrBits(sha, own) + set d, i | d in dependents && i in AddrBits(sha, d) :: i
  }

  /** The bits of an outgoing filter, given the filters the peers announced; sizes that differ are skipped. */
  ghost function OutgoingBits(base: set<nat>, peerFilters: map<NodeAddr, Filter>, exclude: NodeAddr): set<nat> {
    base + set p, i | p in peerFilters && p != exclude
                      && peerFilters[p].NumBits() == DEFAULT_FILTER_SIZE_BITS && i in peerFilters[p].Ones() :: i
  }

  class BloomState {
    const sha: Sha
    const ownNodeAddr: NodeAddr
    var leafDependents: set<NodeAddr>
    var updateDebounceMs: nat
    var lastUpdateSent: map<NodeAddr, nat>
    var pendingUpdates: set<NodeAddr>
    var sequence: nat
    var lastSentFilters: map<NodeAddr, Filter>

    /** Everything ever sent has the default parameters. */
    ghost predicate Valid()
      reads this
    {
      forall p | p in lastSentFilters :: lastSentFilters[p].IsDefault()
    }

    ghost function Base(): set<nat>
      reads this
    {
      BaseBits(sha, ownNodeAddr, leafDependents)
    }

    constructor (sha: Sha, ownNodeAddr: NodeAddr)
      ensures Valid() && this.sha == sha && this.ownNodeAddr == ownNodeAddr
      ensures leafDependents == {} && pendingUpdates == {} && sequence == 0
      ensures lastUpdateSent == map[] && lastSentFilters == map[] && updateDebounceMs == 500
    {
      this.sha, this.ownNodeAddr := sha, ownNodeAddr;
      leafDependents, updateDebounceMs := {}, 500;
      lastUpdateSent, pendingUpdates, sequence, lastSentFilters := map[], {}, 0, map[];
    }

    method ShouldSendUpdate(peer: NodeAddr, nowMs: nat) returns (ok: bool)
      ensures ok <==> peer in pendingUpdates
                      && (peer in lastUpdateSent ==> lastUpdateSent[peer] + updateDebounceMs <= nowMs)
    {
      if peer !in pendingUpdates {
        return false;
      }
      ok := if peer in lastUpdateSent then nowMs >= lastUpdateSent[peer] + updateDebounceMs else true;
    }

    method RecordUpdateSent(peer: NodeAddr, nowMs: nat)
      modifies this`lastUpdateSent, this`pendingUpdates
      ensures lastUpdateSent == old(lastUpdateSent)[peer := nowMs]
      ensures pendingUpdates == old(pendingUpdates) - {peer}
    {
      lastUpdateSent := lastUpdateSent[peer := nowMs];
      pendingUpdates := pendingUpdates - {peer};
    }

    method RecordSentFilter(peer: NodeAddr, filter: Filter)
      requires Valid() && filter.IsDefault()
      modifies this`lastSentFilters
      ensures Valid() && lastSentFilters == old(lastSentFilters)[peer := filter]
    {
      lastSentFilters := lastSentFilters[peer := filter];
    }

    /** Everything kept about a removed peer goes, so that its return starts afresh. */
    method RemovePeerState(peer: NodeAddr)
      requires Valid()
      modifies this`lastSentFilters, this`lastUpdateSent, this`pendingUpdates
      ensures Valid()
      ensures lastSentFilters == old(lastSentFilters) - {peer}
      ensures lastUpdateSent == old(lastUpdateSent) - {peer}
      ensures pendingUpdates == old(pendingUpdates) - {peer}
    {
      lastSentFilters := lastSentFilters - {peer};
      lastUpdateSent := lastUpdateSent - {peer};
      pendingUpdates := pendingUpdates - {peer};
    }

    method NextSequence() returns (n: nat)
      modifies this`sequence
      ensures n == sequence == old(sequence) + 1
    {
      sequence := sequence + 1;
      n := sequence;
    }

    /** A filter with just this node and its dependents. */
    method BaseFilter() returns (filter: BloomFilter)
      ensures IsDefaultFilter(filter) && fresh(filter) && fresh(filter.bits)
      ensures filter.Value().Ones() == Base()
    {
      hide Positions, Pow2, Filter.Ones, AddrBits;
      filter := DefaultFilter();
      InsertAddr(sha, filter, ownNodeAddr);
      InsertAll(sha, filter, leafDependents);
      BaseBitsAre(sha, ownNodeAddr, leafDependents);
    }

    /** The base filter with every other peer's filter merged in, in whatever order the map is walked. */
    method ComputeOutgoingFilter(exclude: NodeAddr, peerFilters: map<NodeAddr, Filter>) returns (r: Filter)
      ensures r.IsDefault()
      ensures r.Ones() == OutgoingBits(Base(), peerFilters, exclude)
    {
      hide Positions, Pow2, Filter.Ones, BaseBits, OutgoingBits;
      var filter := BaseFilter();
      var keys := peerFilters.Keys;
      OutgoingBitsStart(Base(), peerFilters, exclude);
      while keys != {}
        invariant keys <= peerFilters.Keys && IsDefaultFilter(filter) && fresh(filter.bits)
        invariant filter.Value().Ones() == OutgoingBits(Base(), peerFilters - keys, exclude)
        decreases |keys|
      {
        var p :| p in keys;
        OutgoingBitsAdd(Base(), peerFilters, keys, p, exclude);
        if p != exclude {
          var merged := filter.Merge(peerFilters[p]);
        }
        keys := keys - {p};
      }
      assert peerFilters - {} == peerFilters;
      r := filter.Value();
    }

    /** Mark the peers whose outgoing filter differs from the last one sent to them. */
    method MarkChangedPeers(excludeFrom: NodeAddr, peerAddrs: seq<NodeAddr>, peerFilters: map<NodeAddr, Filter>)
      requires Valid()
      modifies this`pendingUpdates
      ensures pendingUpdates == old(pendingUpdates) + set p | p in peerAddrs && p != excludeFrom
                && (p !in lastSentFilters || lastSentFilters[p].Ones() != OutgoingBits(Base(), peerFilters, p))
    {
      hide OutgoingBits, BaseBits, Filter.Ones;
      for i := 0 to |peerAddrs|
        invariant pendingUpdates == old(pendingUpdates) + set p | p in peerAddrs[..i] && p != excludeFrom
                    && (p !in lastSentFilters || lastSentFilters[p].Ones() != OutgoingBits(Base(), peerFilters, p))
      {
        var p := peerAddrs[i];
        assert peerAddrs[..i + 1] == peerAddrs[..i] + [p];
        if p == excludeFrom {
          continue;
        }
        var newFilter := ComputeOutgoingFilter(p, peerFilters);
        var changed := p !in lastSentFilters || lastSentFilters[p] != newFilter;
        if p in lastSentFilters {
          EqualIffSameOnes(lastSentFilters[p], newFilter);
        }
        if changed {
          pendingUpdates := pendingUpdates + {p};
        }
      }
      assert peerAddrs[..|peerAddrs|] == peerAddrs;
    }
  }

  ghost predicate IsDefaultFilter(f: BloomFilter) {
    f.bits.Length == DEFAULT_FILTER_SIZE_BITS / 8 && f.hashCount == DEFAULT_HASH_COUNT
  }

  method InsertAddr(sha: Sha, filter: BloomFilter, a: NodeAddr)
    requires IsDefaultFilter(filter)
    modifies filter.bits
    ensures filter.Value().Ones() == old(filter.Value().Ones()) + AddrBits(sha, a)
  {
    hide Positions, Filter.Ones;
    filter.Insert(sha(a));
  }

  method DefaultFilter() returns (filter: BloomFilter)
    ensures IsDefaultFilter(filter) && fresh(filter) && fresh(filter.bits)
    ensures filter.Value().Ones() == {}
  {
    hide Positions, Pow2;
    var made := BloomFilter.WithParams(DEFAULT_FILTER_SIZE_BITS, DEFAULT_HASH_COUNT);
    filter := made.value;
  }

  ghost function AllBits(sha: Sha, addrs: set<NodeAddr>): set<nat> {
    set d, i | d in addrs && i in AddrBits(sha, d) :: i
  }

  /** Insert addresses in whatever order the set is walked. */
  method InsertAll(sha: Sha, filter: BloomFilter, addrs: set<NodeAddr>)
    requires IsDefaultFilter(filter)
    modifies filter.bits
    ensures filter.Value().Ones() == old(filter.Value().Ones()) + AllBits(sha, addrs)
  {
    hide Filter.Ones, AddrBits, AllBits;
    ghost var was := filter.Value().Ones();
    var todo := addrs;
    AllBitsNone(sha, addrs - todo);
    while todo != {}
      invariant todo <= addrs
      invariant filter.Value().Ones() == was + AllBits(sha, addrs - todo)
      decreases |todo|
    {
      var d :| d in todo;
      InsertAddr(sha, filter, d);
      AllBitsAdd(sha, addrs, todo, d);
      todo := todo - {d};
    }
    assert addrs - {} == addrs;
  }

  lemma AllBitsNone(sha: Sha, none: set<NodeAddr>)
    requires none == {}
    ensures AllBits(sha, none) == {}
  {}

  lemma AllBitsAdd(sha: Sha, addrs: set<NodeAddr>, todo: set<NodeAddr>, d: NodeAddr)
    requires todo <= addrs && d in todo
    ensures AllBits(sha, addrs - (todo - {d})) == AllBits(sha, addrs - todo) + AddrBits(sha, d)
  {}

  lemma BaseBitsAre(sha: Sha, own: NodeAddr, dependents: set<NodeAddr>)
    ensures BaseBits(sha, own, dependents) == AddrBits(sha, own) + AllBits(sha, dependents)
  {}

  lemma OutgoingBitsStart(base: set<nat>, m: map<NodeAddr, Filter>, exclude: NodeAddr)
    ensures OutgoingBits(base, m - m.Keys, exclude) == base
  {}

  lemma OutgoingBitsAdd(base: set<nat>, m: map<NodeAddr, Filter>, keys: set<NodeAddr>, p: NodeAddr, exclude: NodeAddr)
    requires p in keys && keys <= m.Keys
    ensures OutgoingBits(base, m - (keys - {p}), exclude) == OutgoingBits(base, m - keys, exclude)
              + (if p != exclude && m[p].NumBits() == DEFAULT_FILTER_SIZE_BITS then m[p].Ones() else {})
  {
    var less, more := m - keys, m - (keys - {p});
    hide Filter.Ones;
    forall q ensures q in more <==> q in less || q == p {}
    forall i ensures i in OutgoingBits(base, more, exclude) <==>
                       i in OutgoingBits(base, less, exclude)
                            + (if p != exclude && m[p].NumBits() == DEFAULT_FILTER_SIZE_BITS then m[p].Ones() else {}) {
      if p != exclude && m[p].NumBits() == DEFAULT_FILTER_SIZE_BITS && i in m[p].Ones() {
        assert p in more && more[p] == m[p];
      }
      if q :| q in less && q != exclude && less[q].NumBits() == DEFAULT_FILTER_SIZE_BITS && i in less[q].Ones() {
        assert q in more && more[q] == less[q];
      }
    }
  }

  /** What an outgoing filter answers: it knows this node, its leaf dependents and whatever another peer's filter
      of the default size knows, and every bit of it has such an origin. */
  lemma OutgoingKnows(sha: Sha, own: NodeAddr, dependents: set<NodeAddr>, m: map<NodeAddr, Filter>, exclude: NodeAddr,
      r: Filter)
    requires r.IsDefault() && r.Ones() == OutgoingBits(BaseBits(sha, own, dependents), m, exclude)
    ensures forall a | a == own || a in dependents :: MayContain(r, sha(a))
    ensures forall p, d | p in m && p != exclude && m[p].IsDefault() && MayContain(m[p], d) :: MayContain(r, d)
    ensures forall i | i in r.Ones() ::
              (exists a :: (a == own || a in dependents) && i in Positions(sha(a), 5, 8192))
              || exists p :: p in m && p != exclude && m[p].NumBits() == 8192 && i in m[p].Ones()
  {
    hide Positions, Filter.Ones;
    forall i | i in r.Ones()
      ensures (exists a :: (a == own || a in dependents) && i in Positions(sha(a), 5, 8192))
              || exists p :: p in m && p != exclude && m[p].NumBits() == 8192 && i in m[p].Ones()
    {
      if i in BaseBits(sha, own, dependents) {
        if i !in AddrBits(sha, own) {
          var d :| d in dependents && i in AddrBits(sha, d);
        }
      }
    }
    forall a | a == own || a in dependents ensures MayContain(r, sha(a)) {
      forall i | i in Positions(sha(a), 5, 8192) ensures i in r.Ones() {
        assert i in AddrBits(sha, a);
      }
    }
  }

  // ----- how often one peer is sent to -----

  /** A try to send to the peer, or the peer's removal. */
  datatype Attempt = Try(now: nat, pending: bool, delivered: bool) | Removed

  function LastSentAfter(debounce: nat, attempts: seq<Attempt>): Option<nat>
    decreases |attempts|, 0
  {
    if attempts == [] then None
    else
      var n := |attempts| - 1;
      if attempts[n].Removed? then None
      else if Sends(debounce, attempts, n) then Some(attempts[n].now)
      else LastSentAfter(debounce, attempts[..n])
  }

  /** Is attempt `i` sent? */
  predicate Sends(debounce: nat, attempts: seq<Attempt>, i: nat)
    requires i < |attempts|
    decreases i, 1
  {
    var a := attempts[i];
    var last := LastSentAfter(debounce, attempts[..i]);
    a.Try? && a.pending && a.delivered && (last.Some? ==> last.value + debounce <= a.now)
  }

  /** Two announcements to one peer are at least the debounce time apart, unless the peer was removed in
      between. */
  lemma {:induction false} SendsAreSpaced(debounce: nat, attempts: seq<Attempt>, i: nat, j: nat)
    requires i < j < |attempts| && Sends(debounce, attempts, i) && Sends(debounce, attempts, j)
    requires forall k | i < k < j :: !attempts[k].Removed?
    ensures attempts[i].now + debounce <= attempts[j].now
  {
    var t := LaterSend(debounce, attempts, i, j);
  }

  /** The latest send before `j` is at or after the one at `i`. */
  lemma {:induction false} LaterSend(debounce: nat, attempts: seq<Attempt>, i: nat, j: nat) returns (t: nat)
    requires i < j <= |attempts| && Sends(debounce, attempts, i)
    requires forall k | i < k < j :: !attempts[k].Removed?
    ensures LastSentAfter(debounce, attempts[..j]) == Some(t) && attempts[i].now <= t
    decreases j
  {
    var n := j - 1;
    var head := attempts[..j];
    assert head[..n] == attempts[..n] && head[n] == attempts[n];
    assert Sends(debounce, head, n) == Sends(debounce, attempts, n);
    if n == i {
      t := attempts[i].now;
    } else {
      t := LaterSend(debounce, attempts, i, n);
      if Sends(debounce, attempts, n) {
        t := attempts[n].now;
      }
    }
  }

  /** An attempt is sent exactly if an update is pending, the transport delivers it, and no earlier send since the
      peer's last removal is nearer than the debounce time. */
  lemma SentIffSpaced(debounce: nat, attempts: seq<Attempt>, i: nat)
    requires i < |attempts|
    ensures Sends(debounce, attempts, i)
            <==> attempts[i].Try? && attempts[i].pending && attempts[i].delivered
                 && forall j: nat | SentSinceRemoval(debounce, attempts, j, i) ::
                      attempts[j].now + debounce <= attempts[i].now
  {
    LastSentIs(debounce, attempts, i);
  }

  /** Attempt `j` was sent, and the peer has not been removed between it and attempt `i`. */
  ghost predicate SentSinceRemoval(debounce: nat, attempts: seq<Attempt>, j: nat, i: nat)
    requires i <= |attempts|
  {
    j < i && Sends(debounce, attempts, j) && forall k | j < k < i :: !attempts[k].Removed?
  }

  lemma {:induction false} LastSentIs(debounce: nat, attempts: seq<Attempt>, i: nat)
    requires i <= |attempts|
    ensures var last := LastSentAfter(debounce, attempts[..i]);
            && (last.Some? ==>
                  exists j: nat :: SentSinceRemoval(debounce, attempts, j, i) && attempts[j].now == last.value)
            && (forall j: nat | SentSinceRemoval(debounce, attempts, j, i) ::
                  last.Some? && attempts[j].now <= last.value)
    decreases i
  {
    if i > 0 {
      var n := i - 1;
      LastSentIs(debounce, attempts, n);
      var head := attempts[..i];
      assert head[..n] == attempts[..n] && head[n] == attempts[n];
      assert Sends(debounce, head, n) == Sends(debounce, attempts, n);
      hide Sends;
      forall j: nat | j < n
        ensures SentSinceRemoval(debounce, attempts, j, i)
                <==> SentSinceRemoval(debounce, attempts, j, n) && !attempts[n].Removed?
      {}
    }
  }
}
