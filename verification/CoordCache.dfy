/**
  The bounded coordinate cache with expiry and least-recently-used eviction, against an unbounded one.
*/
module CoordCache {
  import opened Basics

  const U64_MAX: nat := 0xFFFF_FFFF_FFFF_FFFF

  function SaturatingAdd(a: nat, b: nat): nat {
    if a + b <= U64_MAX then a + b else U64_MAX
  }

  datatype CacheEntry = CacheEntry(coords: Coord, createdAt: nat, lastUsed: nat, expiresAt: nat, pathMtu: Option<nat>) {
    predicate IsExpired(now: nat) {
      now > expiresAt
    }

    function IdleTime(now: nat): nat {
      Monus(now, lastUsed)
    }

    function Refresh(now: nat, ttl: nat): CacheEntry {
      this.(expiresAt := SaturatingAdd(now, ttl), lastUsed := now)
    }

    function Update(coords: Coord, now: nat, ttl: nat): CacheEntry {
      this.(coords := coords, lastUsed := now, expiresAt := SaturatingAdd(now, ttl))
    }

    function WithMtu(mtu: Option<nat>): CacheEntry {
      if mtu.Some? then this.(pathMtu := mtu) else this
    }
  }

  function NewEntry(coords: Coord, now: nat, ttl: nat): CacheEntry {
    CacheEntry(coords, now, now, SaturatingAdd(now, ttl), None)
  }

  type Entries = map<NodeAddr, CacheEntry>

  /** The entry an insertion leaves: an old path MTU survives unless a new one comes with it. */
  function EntryFor(old0: Entries, addr: NodeAddr, coords: Coord, now: nat, ttl: nat, mtu: Option<nat>): CacheEntry {
    (if addr in old0 then old0[addr].Update(coords, now, ttl) else NewEntry(coords, now, ttl)).WithMtu(mtu)
  }

  /** Which entry may go: any expired one, or if there is none the longest idle. */
  ghost predicate MayEvict(entries: Entries, now: nat, k: NodeAddr) {
    && k in entries
    && (entries[k].IsExpired(now)
        || forall a | a in entries :: !entries[a].IsExpired(now)
                                      && entries[a].IdleTime(now) <= entries[k].IdleTime(now))
  }

  /** Room for a new address: unchanged below capacity, one eviction at capacity. */
  ghost predicate MadeRoom(before: Entries, after: Entries, maxEntries: nat, now: nat) {
    if |before| < maxEntries || before == map[] then after == before
    else exists k :: MayEvict(before, now, k) && after == before - {k}
  }

  ghost predicate Inserted(before: Entries, after: Entries, maxEntries: nat, addr: NodeAddr, entry: CacheEntry,
      now: nat) {
    if addr in before then after == before[addr := entry]
    else exists room :: MadeRoom(before, room, maxEntries, now) && after == room[addr := entry]
  }

  function Unexpired(entries: Entries, now: nat): Entries {
    map a | a in entries && !entries[a].IsExpired(now) :: entries[a]
  }

  function Lookup(entries: Entries, addr: NodeAddr, now: nat): Option<Coord> {
    if addr in entries && !entries[addr].IsExpired(now) then Some(entries[addr].coords) else None
  }

  function Touched(entries: Entries, addr: NodeAddr, now: nat, ttl: nat): Entries {
    if addr !in entries then entries
    else if entries[addr].IsExpired(now) then entries - {addr}
    else entries[addr := entries[addr].Refresh(now, ttl)]
  }

  class CoordCache {
    var entries: Entries
    const maxEntries: nat
    var defaultTtlMs: nat

    ghost predicate Valid()
      reads this
    {
      |entries| <= maxEntries || |entries| == 1
    }

    constructor (maxEntries: nat, defaultTtlMs: nat)
      ensures Valid() && entries == map[] && this.maxEntries == maxEntries && this.defaultTtlMs == defaultTtlMs
    {
      entries, this.maxEntries, this.defaultTtlMs := map[], maxEntries, defaultTtlMs;
    }

    method Insert(addr: NodeAddr, coords: Coord, now: nat)
      requires Valid()
      modifies this`entries
      ensures Valid()
      ensures Inserted(old(entries), entries, maxEntries, addr,
                       EntryFor(old(entries), addr, coords, now, defaultTtlMs, None), now)
    {
      InsertEntry(addr, coords, now, defaultTtlMs, None);
    }

    method InsertWithPathMtu(addr: NodeAddr, coords: Coord, now: nat, pathMtu: nat)
      requires Valid()
      modifies this`entries
      ensures Valid()
      ensures Inserted(old(entries), entries, maxEntries, addr,
                       EntryFor(old(entries), addr, coords, now, defaultTtlMs, Some(pathMtu)), now)
    {
      InsertEntry(addr, coords, now, defaultTtlMs, Some(pathMtu));
    }

    method InsertWithTtl(addr: NodeAddr, coords: Coord, now: nat, ttl: nat)
      requires Valid()
      modifies this`entries
      ensures Valid()
      ensures Inserted(old(entries), entries, maxEntries, addr,
                       EntryFor(old(entries), addr, coords, now, ttl, None), now)
    {
      InsertEntry(addr, coords, now, ttl, None);
    }

    method InsertEntry(addr: NodeAddr, coords: Coord, now: nat, ttl: nat, mtu: Option<nat>)
      requires Valid()
      modifies this`entries
      ensures Valid()
      ensures Inserted(old(entries), entries, maxEntries, addr,
                       EntryFor(old(entries), addr, coords, now, ttl, mtu), now)
    {
      if addr in entries {
        entries := entries[addr := entries[addr].Update(coords, now, ttl).WithMtu(mtu)];
        return;
      }
      if |entries| >= maxEntries {
        EvictOne(now);
      }
      assert MadeRoom(old(entries), entries, maxEntries, now);
      entries := entries[addr := NewEntry(coords, now, ttl).WithMtu(mtu)];
    }

    method Get(addr: NodeAddr, now: nat) returns (r: Option<Coord>)
      ensures r == Lookup(entries, addr, now)
    {
      if addr in entries {
        if entries[addr].IsExpired(now) {
          return None;
        }
        return Some(entries[addr].coords);
      }
      r := None;
    }

    method GetAndTouch(addr: NodeAddr, now: nat) returns (r: Option<Coord>)
      requires Valid()
      modifies this`entries
      ensures Valid() && r == Lookup(old(entries), addr, now)
      ensures entries == Touched(old(entries), addr, now, defaultTtlMs)
    {
      if addr in entries && entries[addr].IsExpired(now) {
        Smaller(entries, addr);
        entries := entries - {addr};
        return None;
      }
      if addr in entries {
        assert entries.Keys == entries[addr := entries[addr].Refresh(now, defaultTtlMs)].Keys;
        entries := entries[addr := entries[addr].Refresh(now, defaultTtlMs)];
        r := Some(entries[addr].coords);
      } else {
        r := None;
      }
    }

    /** Forget expired entries, in whatever order the map is walked. */
    method PurgeExpired(now: nat) returns (gone: nat)
      requires Valid()
      modifies this`entries
      ensures Valid() && entries == Unexpired(old(entries), now) && gone == |old(entries)| - |entries|
    {
      ghost var was := entries;
      var before := |entries|;
      var keys := entries.Keys;
      while keys != {}
        invariant keys <= was.Keys && |entries| <= |was|
        invariant forall a :: a in entries <==> a in was && (a in keys || !was[a].IsExpired(now))
        invariant forall a | a in entries :: entries[a] == was[a]
        decreases |keys|
      {
        var a :| a in keys;
        if entries[a].IsExpired(now) {
          Smaller(entries, a);
          entries := entries - {a};
        }
        keys := keys - {a};
      }
      gone := before - |entries|;
    }

    /** Expired first, then least recently used. */
    method EvictOne(now: nat)
      modifies this`entries
      ensures if old(entries) == map[] then entries == old(entries)
              else |entries| == |old(entries)| - 1
                   && exists k :: MayEvict(old(entries), now, k) && entries == old(entries) - {k}
    {
      var expired := FindExpired(now);
      if expired.Some? {
        Smaller(entries, expired.value);
        entries := entries - {expired.value};
        return;
      }
      var lru := FindLongestIdle(now);
      if lru.Some? {
        assert MayEvict(entries, now, lru.value);
        Smaller(entries, lru.value);
        entries := entries - {lru.value};
      }
    }

    /** The first expired entry the walk over the map meets. */
    method FindExpired(now: nat) returns (r: Option<NodeAddr>)
      ensures r.Some? ==> r.value in entries && entries[r.value].IsExpired(now)
      ensures r.None? ==> forall a | a in entries :: !entries[a].IsExpired(now)
    {
      var keys := entries.Keys;
      while keys != {}
        invariant keys <= entries.Keys
        invariant forall a | a in entries && a !in keys :: !entries[a].IsExpired(now)
        decreases |keys|
      {
        var a :| a in keys;
        if entries[a].IsExpired(now) {
          return Some(a);
        }
        keys := keys - {a};
      }
      r := None;
    }

    method FindLongestIdle(now: nat) returns (r: Option<NodeAddr>)
      ensures r.None? <==> entries == map[]
      ensures r.Some? ==> r.value in entries
                          && forall a | a in entries :: entries[a].IdleTime(now) <= entries[r.value].IdleTime(now)
    {
      r := None;
      var keys := entries.Keys;
      while keys != {}
        invariant keys <= entries.Keys
        invariant r.None? ==> keys == entries.Keys
        invariant r.Some? ==> r.value in entries
        invariant forall a | a in entries && a !in keys ::
                    r.Some? && entries[a].IdleTime(now) <= entries[r.value].IdleTime(now)
        decreases |keys|
      {
        var a :| a in keys;
        if r.None? || entries[r.value].IdleTime(now) <= entries[a].IdleTime(now) {
          r := Some(a);
        }
        keys := keys - {a};
      }
      assert r.None? ==> entries.Keys == {};
    }
  }

  lemma Smaller(m: Entries, k: NodeAddr)
    requires k in m
    ensures |m - {k}| == |m| - 1
  {}

  /** While the clock has not run back past any use, an unexpired entry goes only if every entry is unexpired
      and none was used before it. */
  lemma EvictedIsOldest(entries: Entries, now: nat, k: NodeAddr)
    requires MayEvict(entries, now, k) && forall a | a in entries :: entries[a].lastUsed <= now
    ensures !entries[k].IsExpired(now) ==>
              forall a | a in entries :: !entries[a].IsExpired(now) && entries[k].lastUsed <= entries[a].lastUsed
  {}

  // ----- whole runs, next to a cache without bound -----

  datatype Event =
    | Insert(addr: NodeAddr, coords: Coord, now: nat, ttl: nat, mtu: Option<nat>)
    | Touch(addr: NodeAddr, now: nat, ttl: nat)
    | Purge(now: nat)
    | Remove(addr: NodeAddr)
    | Clear

  /** The steps of the bounded cache; eviction leaves some choice. */
  ghost predicate Step(before: Entries, e: Event, after: Entries, maxEntries: nat) {
    match e
    case Insert(addr, coords, now, ttl, mtu) =>
      Inserted(before, after, maxEntries, addr, EntryFor(before, addr, coords, now, ttl, mtu), now)
    case Touch(addr, now, ttl) => after == Touched(before, addr, now, ttl)
    case Purge(now) => after == Unexpired(before, now)
    case Remove(addr) => after == before - {addr}
    case Clear => after == map[]
  }

  /** The same operations on a cache that never evicts. */
  function Unbounded(events: seq<Event>): Entries {
    if events == [] then map[]
    else
      var before := Unbounded(events[..|events| - 1]);
      match events[|events| - 1]
      case Insert(addr, coords, now, ttl, mtu) => before[addr := EntryFor(before, addr, coords, now, ttl, mtu)]
      case Touch(addr, now, ttl) => Touched(before, addr, now, ttl)
      case Purge(now) => Unexpired(before, now)
      case Remove(addr) => before - {addr}
      case Clear => map[]
  }

  /** `states` are those of a bounded cache that starts empty. */
  ghost predicate Run(states: seq<Entries>, events: seq<Event>, maxEntries: nat) {
    && |states| == |events| + 1 && states[0] == map[]
    && forall i | 0 <= i < |events| :: Step(states[i], events[i], states[i + 1], maxEntries)
  }

  /** Same coordinates and times of use and expiry. Creation time and path MTU start afresh when an evicted
      address comes back. */
  predicate SameAnswer(a: CacheEntry, b: CacheEntry) {
    a.coords == b.coords && a.lastUsed == b.lastUsed && a.expiresAt == b.expiresAt
  }

  ghost predicate Within(small: Entries, large: Entries) {
    forall a | a in small :: a in large && SameAnswer(small[a], large[a])
  }

  lemma StepWithin(before: Entries, e: Event, after: Entries, maxEntries: nat, large: Entries, events: seq<Event>)
    requires Step(before, e, after, maxEntries) && Within(before, large)
    requires large == Unbounded(events)
    ensures Within(after, Unbounded(events + [e]))
  {
    assert (events + [e])[..|events|] == events;
    if e.Insert? && e.addr !in before {
      var room :| MadeRoom(before, room, maxEntries, e.now)
                  && after == room[e.addr := EntryFor(before, e.addr, e.coords, e.now, e.ttl, e.mtu)];
      RoomWithin(before, room, maxEntries, e.now);
    }
  }

  lemma RoomWithin(before: Entries, room: Entries, maxEntries: nat, now: nat)
    requires MadeRoom(before, room, maxEntries, now)
    ensures forall a | a in room :: a in before && room[a] == before[a]
  {}

  lemma {:induction false} RunWithin(states: seq<Entries>, events: seq<Event>, maxEntries: nat)
    requires Run(states, events, maxEntries)
    ensures Within(states[|events|], Unbounded(events))
    decreases |events|
  {
    hide Step, Within;
    if events != [] {
      var n := |events| - 1;
      assert Run(states[..n + 1], events[..n], maxEntries);
      RunWithin(states[..n + 1], events[..n], maxEntries);
      StepWithin(states[n], events[n], states[n + 1], maxEntries, Unbounded(events[..n]), events[..n]);
      assert events[..n] + [events[n]] == events;
    } else {
      assert Within(states[0], Unbounded(events)) by { EmptyWithin(Unbounded(events)); }
    }
  }

  lemma EmptyWithin(large: Entries)
    ensures Within(map[], large)
  {}

  /** The coordinates of the latest insertion for an address that was not taken back. */
  function LastInserted(events: seq<Event>, addr: NodeAddr): Option<Coord> {
    if events == [] then None
    else
      match events[|events| - 1]
      case Insert(a, coords, _, _, _) => if a == addr then Some(coords) else LastInserted(events[..|events| - 1], addr)
      case Remove(a) => if a == addr then None else LastInserted(events[..|events| - 1], addr)
      case Clear => None
      case _ => LastInserted(events[..|events| - 1], addr)
  }

  lemma {:induction false} UnboundedHoldsLast(events: seq<Event>, addr: NodeAddr)
    ensures addr in Unbounded(events) ==> LastInserted(events, addr) == Some(Unbounded(events)[addr].coords)
  {
    if events != [] {
      UnboundedHoldsLast(events[..|events| - 1], addr);
    }
  }

  /** A hit of the bounded cache is the unbounded cache's answer and the coordinates inserted last. */
  lemma HitsAreRight(states: seq<Entries>, events: seq<Event>, maxEntries: nat, addr: NodeAddr, now: nat)
    requires Run(states, events, maxEntries)
    ensures var hit := Lookup(states[|events|], addr, now);
            hit.Some? ==> hit == Lookup(Unbounded(events), addr, now) == LastInserted(events, addr)
  {
    RunWithin(states, events, maxEntries);
    UnboundedHoldsLast(events, addr);
  }

  function Addresses(events: seq<Event>): set<NodeAddr> {
    set e | e in events && e.Insert? :: e.addr
  }

  /** With no more addresses than entries nothing is ever evicted: the two caches agree on everything. */
  lemma {:induction false} NoEvictionWithinCapacity(states: seq<Entries>, events: seq<Event>, maxEntries: nat)
    requires Run(states, events, maxEntries) && |Addresses(events)| <= maxEntries
    ensures states[|events|] == Unbounded(events) && states[|events|].Keys <= Addresses(events)
    decreases |events|
  {
    hide Inserted, Touched, Unexpired;
    if events != [] {
      var n := |events| - 1;
      var before, e := events[..n], events[n];
      assert events == before + [e];
      assert Run(states[..n + 1], before, maxEntries);
      assert Addresses(before) <= Addresses(events);
      SubsetSize(Addresses(before), Addresses(events));
      NoEvictionWithinCapacity(states[..n + 1], before, maxEntries);
      StepWithoutEviction(states[n], e, states[n + 1], maxEntries, events);
    }
  }

  lemma StepWithoutEviction(before: Entries, e: Event, after: Entries, maxEntries: nat, events: seq<Event>)
    requires events != [] && events[|events| - 1] == e && Step(before, e, after, maxEntries)
    requires before == Unbounded(events[..|events| - 1]) && before.Keys <= Addresses(events)
             && |Addresses(events)| <= maxEntries
    ensures after == Unbounded(events) && after.Keys <= Addresses(events)
  {
    if e.Insert? {
      assert e in events && e.addr in Addresses(events);
      if e.addr !in before {
        SubsetSize(before.Keys + {e.addr}, Addresses(events));
        assert |before.Keys + {e.addr}| == |before| + 1;
      }
    }
  }

  // ----- when an address is found, from the events alone -----

  /** The latest use of an address: its insertion or its last successful touch, and for how long it counts. */
  datatype Use = Use(at: nat, ttl: nat) {
    predicate Counts(now: nat) {
      now <= at + ttl
    }
  }

  /** None if the address was never inserted, was taken out since, or was found to be too old. */
  function LastUse(events: seq<Event>, addr: NodeAddr): Option<Use> {
    if events == [] then None
    else
      var before := LastUse(events[..|events| - 1], addr);
      match events[|events| - 1]
      case Insert(a, _, now, ttl, _) => if a == addr then Some(Use(now, ttl)) else before
      case Touch(a, now, ttl) =>
        if a == addr && before.Some? then (if before.value.Counts(now) then Some(Use(now, ttl)) else None) else before
      case Purge(now) => if before.Some? && before.value.Counts(now) then before else None
      case Remove(a) => if a == addr then None else before
      case Clear => None
  }

  /** Times are machine words. */
  predicate InRange(e: Event) {
    match e
    case Touch(_, now, _) => now <= U64_MAX
    case Purge(now) => now <= U64_MAX
    case _ => true
  }

  lemma {:induction false} EntryIs(events: seq<Event>, addr: NodeAddr)
    requires forall e | e in events :: InRange(e)
    ensures var cache, use := Unbounded(events), LastUse(events, addr);
            && (addr in cache <==> use.Some?)
            && (use.Some? ==> cache[addr].lastUsed == use.value.at
                              && forall now: nat | now <= U64_MAX ::
                                   cache[addr].IsExpired(now) <==> !use.value.Counts(now))
  {
    if events != [] {
      var n := |events| - 1;
      assert events == events[..n] + [events[n]];
      assert InRange(events[n]);
      EntryIs(events[..n], addr);
    }
  }

  /** A lookup in a cache that never evicts gives the coordinates inserted last exactly until the time to live
      has passed since the latest use, and then nothing. */
  lemma FoundIff(events: seq<Event>, addr: NodeAddr, now: nat)
    requires now <= U64_MAX && forall e | e in events :: InRange(e)
    ensures var use := LastUse(events, addr);
            Lookup(Unbounded(events), addr, now)
            == if use.Some? && now <= use.value.at + use.value.ttl then LastInserted(events, addr) else None
  {
    EntryIs(events, addr);
    UnboundedHoldsLast(events, addr);
  }

  /** So does the bounded one while it has room for all addresses. */
  lemma FoundIffWithRoom(states: seq<Entries>, events: seq<Event>, maxEntries: nat, addr: NodeAddr, now: nat)
    requires Run(states, events, maxEntries) && |Addresses(events)| <= maxEntries
    requires now <= U64_MAX && forall e | e in events :: InRange(e)
    ensures var use := LastUse(events, addr);
            Lookup(states[|events|], addr, now)
            == if use.Some? && now <= use.value.at + use.value.ttl then LastInserted(events, addr) else None
  {
    NoEvictionWithinCapacity(states, events, maxEntries);
    FoundIff(events, addr, now);
  }

  /** And in every run for an address that is still there: what is missing was evicted or has had its time. */
  lemma FoundIffKept(states: seq<Entries>, events: seq<Event>, maxEntries: nat, addr: NodeAddr, now: nat)
    requires Run(states, events, maxEntries)
    requires now <= U64_MAX && forall e | e in events :: InRange(e)
    ensures addr in states[|events|] ==> LastUse(events, addr).Some?
    ensures var use := LastUse(events, addr);
            Lookup(states[|events|], addr, now)
            == if addr in states[|events|] && now <= use.value.at + use.value.ttl then LastInserted(events, addr)
               else None
  {
    if addr in states[|events|] {
      UseOfKept(states, events, maxEntries, addr, now);
      UnboundedHoldsLast(events, addr);
    }
  }

  /** What an insertion evicts, from the events alone: an address that has had its time, or if none has the one
      whose latest use is furthest back. */
  lemma EvictedIsLeastRecent(states: seq<Entries>, events: seq<Event>, maxEntries: nat, last: Event, after: Entries,
      k: NodeAddr)
    requires Run(states, events, maxEntries) && forall e | e in events :: InRange(e)
    requires last.Insert? && Step(states[|events|], last, after, maxEntries) && last.now <= U64_MAX
    requires forall a | a in states[|events|] :: LastUse(events, a).Some? ==> LastUse(events, a).value.at <= last.now
    requires k in states[|events|] && k !in after
    ensures last.addr !in states[|events|] && |states[|events|]| >= maxEntries
    ensures forall a | a in states[|events|] :: LastUse(events, a).Some?
    ensures !LastUse(events, k).value.Counts(last.now)
            || forall a | a in states[|events|] ::
                 LastUse(events, a).value.Counts(last.now)
                 && LastUse(events, k).value.at <= LastUse(events, a).value.at
  {
    var before := states[|events|];
    GoneIsEvicted(before, last, after, maxEntries, k);
    hide LastUse, Step, Run, CacheEntry.IsExpired, Use.Counts;
    forall a | a in before
      ensures LastUse(events, a).Some? && before[a].lastUsed == LastUse(events, a).value.at
      ensures before[a].IsExpired(last.now) <==> !LastUse(events, a).value.Counts(last.now)
    {
      UseOfKept(states, events, maxEntries, a, last.now);
    }
  }

  /** A kept entry has the times of the latest use. */
  lemma UseOfKept(states: seq<Entries>, events: seq<Event>, maxEntries: nat, addr: NodeAddr, now: nat)
    requires Run(states, events, maxEntries) && addr in states[|events|]
    requires now <= U64_MAX && forall e | e in events :: InRange(e)
    ensures addr in Unbounded(events) && states[|events|][addr].coords == Unbounded(events)[addr].coords
    ensures LastUse(events, addr).Some? && states[|events|][addr].lastUsed == LastUse(events, addr).value.at
    ensures states[|events|][addr].IsExpired(now) <==> !LastUse(events, addr).value.Counts(now)
  {
    RunWithin(states, events, maxEntries);
    EntryIs(events, addr);
    hide LastUse, Unbounded;
    assert Unbounded(events)[addr].IsExpired(now) <==> !LastUse(events, addr).value.Counts(now);
  }

  lemma GoneIsEvicted(before: Entries, last: Event, after: Entries, maxEntries: nat, k: NodeAddr)
    requires last.Insert? && Step(before, last, after, maxEntries) && k in before && k !in after
    ensures last.addr !in before && |before| >= maxEntries && MayEvict(before, last.now, k)
  {
    assert last.addr !in before;
    var room :| MadeRoom(before, room, maxEntries, last.now)
                && after == room[last.addr := EntryFor(before, last.addr, last.coords, last.now, last.ttl, last.mtu)];
    assert k !in room;
    var gone :| MayEvict(before, last.now, gone) && room == before - {gone};
    assert gone == k;
  }

  /** The path MTU kept with an address: the latest one that came with an insertion since it was last absent. */
  function LastMtu(events: seq<Event>, addr: NodeAddr): Option<nat> {
    if events == [] then None
    else
      var earlier := events[..|events| - 1];
      var before := if LastUse(earlier, addr).Some? then LastMtu(earlier, addr) else None;
      match events[|events| - 1]
      case Insert(a, _, _, _, mtu) => if a == addr && mtu.Some? then mtu else before
      case _ => before
  }

  /** And when it was first inserted since then. */
  function FirstInserted(events: seq<Event>, addr: NodeAddr): nat {
    if events == [] then 0
    else
      var earlier := events[..|events| - 1];
      match events[|events| - 1]
      case Insert(a, _, now, _, _) =>
        if a == addr && LastUse(earlier, addr).None? then now else FirstInserted(earlier, addr)
      case _ => FirstInserted(earlier, addr)
  }

  lemma {:induction false} KeptWithAddress(events: seq<Event>, addr: NodeAddr)
    requires forall e | e in events :: InRange(e)
    ensures addr in Unbounded(events) ==>
              var entry, use := Unbounded(events)[addr], LastUse(events, addr);
              && entry.pathMtu == LastMtu(events, addr) && entry.createdAt == FirstInserted(events, addr)
              && use.Some? && entry.expiresAt <= U64_MAX
              && (use.value.at + use.value.ttl <= U64_MAX ==> entry.expiresAt == use.value.at + use.value.ttl)
  {
    if events != [] {
      var n := |events| - 1;
      assert events == events[..n] + [events[n]];
      KeptWithAddress(events[..n], addr);
      EntryIs(events[..n], addr);
    }
  }
}
