/**
  The token bucket and the handshake limiter built on it. Time is in seconds on a monotonic clock.
*/
module TokenBucket {

  function MinReal(a: real, b: real): real {
    if a <= b then a else b
  }

  /** Tokens that flow in over a time. */
  function Flow(rate: real, t: real): real {
    rate * t
  }

  lemma FlowIs(rate: real, t: real)
    ensures Flow(rate, t) == rate * t
  {}

  lemma FlowAdds(rate: real, a: real, b: real)
    ensures Flow(rate, a + b) == Flow(rate, a) + Flow(rate, b)
    ensures Flow(rate, 0.0) == 0.0
  {}

  lemma FlowGrows(rate: real, a: real, b: real)
    requires rate >= 0.0 && a <= b
    ensures Flow(rate, a) <= Flow(rate, b)
  {
    FlowAdds(rate, a, b - a);
    assert rate * (b - a) >= 0.0;
  }

  datatype Bucket = Bucket(capacity: nat, tokens: real, refillRate: real, lastRefill: real) {
    function Refill(now: real): Bucket {
      var elapsed := if now > lastRefill then now - lastRefill else 0.0;
      this.(tokens := MinReal(tokens + Flow(refillRate, elapsed), capacity as real), lastRefill := now)
    }

    predicate Grants(n: nat, now: real) {
      Refill(now).tokens >= n as real
    }

    function Acquire(n: nat, now: real): Bucket {
      var b := Refill(now);
      if b.tokens >= n as real then b.(tokens := b.tokens - n as real) else b
    }
  }

  function FullBucket(capacity: nat, refillRate: real, now: real): Bucket {
    Bucket(capacity, capacity as real, refillRate, now)
  }

  class TokenBucket {
    const capacity: nat
    var tokens: real
    const refillRate: real
    var lastRefill: real

    function View(): Bucket
      reads this
    {
      Bucket(capacity, tokens, refillRate, lastRefill)
    }

    constructor WithParams(capacity: nat, refillRate: real, now: real)
      ensures View() == FullBucket(capacity, refillRate, now)
    {
      this.capacity, tokens, this.refillRate, lastRefill := capacity, capacity as real, refillRate, now;
    }

    method Refill(now: real)
      modifies this
      ensures View() == old(View()).Refill(now)
    {
      var elapsed := if now > lastRefill then now - lastRefill else 0.0;
      tokens := tokens + elapsed * refillRate;
      if tokens > capacity as real {
        tokens := capacity as real;
      }
      lastRefill := now;
    }

    method TryAcquireN(n: nat, now: real) returns (ok: bool)
      modifies this
      ensures View() == old(View()).Acquire(n, now) && ok == old(View()).Grants(n, now)
    {
      Refill(now);
      ok := tokens >= n as real;
      if ok {
        tokens := tokens - n as real;
      }
    }
  }

  /** A refill never takes tokens and never overfills; a clock that has not moved on adds nothing. */
  lemma RefillOnlyAdds(b: Bucket, now: real)
    requires b.refillRate >= 0.0 && b.tokens <= b.capacity as real
    ensures b.tokens <= b.Refill(now).tokens <= b.capacity as real
    ensures now <= b.lastRefill ==> b.Refill(now).tokens == b.tokens
  {
    hide Flow;
    FlowAdds(b.refillRate, 0.0, 0.0);
    FlowGrows(b.refillRate, 0.0, if now > b.lastRefill then now - b.lastRefill else 0.0);
  }

  // ----- whole runs of one bucket -----

  datatype Request = Request(n: nat, now: real)

  function After(b: Bucket, reqs: seq<Request>): Bucket {
    if reqs == [] then b
    else
      var last := reqs[|reqs| - 1];
      After(b, reqs[..|reqs| - 1]).Acquire(last.n, last.now)
  }

  /** Tokens granted from request `j` on. */
  function GrantedSince(b: Bucket, reqs: seq<Request>, j: nat): nat {
    if |reqs| <= j then 0
    else
      var before, last := reqs[..|reqs| - 1], reqs[|reqs| - 1];
      GrantedSince(b, before, j) + if After(b, before).Grants(last.n, last.now) then last.n else 0
  }

  /** Requests do not go back in time, nor before the bucket was made. */
  ghost predicate Ordered(b: Bucket, reqs: seq<Request>, now: real) {
    && (forall i | 0 <= i < |reqs| :: b.lastRefill <= reqs[i].now <= now)
    && (forall i, j | 0 <= i < j < |reqs| :: reqs[i].now <= reqs[j].now)
    && b.lastRefill <= now
  }

  /** When the window that starts with request `j` began; the last window is the present moment. */
  function StartOf(reqs: seq<Request>, j: nat, now: real): real {
    if j < |reqs| then reqs[j].now else now
  }

  /** What the bucket's parameters leave for now of the window that starts with request `j`. */
  function Room(b: Bucket, reqs: seq<Request>, j: nat, now: real): real {
    b.capacity as real + Flow(b.refillRate, now - StartOf(reqs, j, now)) - GrantedSince(b, reqs, j) as real
  }

  lemma {:induction false} AfterShape(b: Bucket, reqs: seq<Request>)
    ensures After(b, reqs).capacity == b.capacity && After(b, reqs).refillRate == b.refillRate
    ensures After(b, reqs).lastRefill == if reqs == [] then b.lastRefill else reqs[|reqs| - 1].now
  {
    if reqs != [] {
      AfterShape(b, reqs[..|reqs| - 1]);
    }
  }

  /** The level of a bucket that started full is the least room of any window that ends now. */
  lemma {:induction false} LevelIsLeastRoom(b: Bucket, reqs: seq<Request>, now: real) returns (j: nat)
    requires b == FullBucket(b.capacity, b.refillRate, b.lastRefill) && b.refillRate >= 0.0 && Ordered(b, reqs, now)
    ensures forall i: nat | i <= |reqs| :: Level(b, reqs, now) <= Room(b, reqs, i, now)
    ensures j <= |reqs| && Level(b, reqs, now) == Room(b, reqs, j, now)
    decreases |reqs|
  {
    hide Flow, Level, Room;
    RoomOfPresent(b, reqs, now);
    if reqs == [] {
      j := 0;
      LevelAtStart(b, now);
    } else {
      var before, last := reqs[..|reqs| - 1], reqs[|reqs| - 1];
      var k := LevelIsLeastRoom(b, before, last.now);
      LevelLater(b, reqs, now);
      forall i: nat | i < |reqs| ensures Level(b, reqs, now) <= Room(b, reqs, i, now) {
        RoomLater(b, reqs, i, now);
      }
      RoomLater(b, reqs, k, now);
      j := if Level(b, reqs, now) == b.capacity as real then |reqs| else k;
    }
  }

  function Level(b: Bucket, reqs: seq<Request>, now: real): real {
    After(b, reqs).Refill(now).tokens
  }

  /** What the last request took. */
  function LastTaken(b: Bucket, reqs: seq<Request>): nat
    requires reqs != []
  {
    var before, last := reqs[..|reqs| - 1], reqs[|reqs| - 1];
    if After(b, before).Grants(last.n, last.now) then last.n else 0
  }

  lemma RoomOfPresent(b: Bucket, reqs: seq<Request>, now: real)
    ensures Room(b, reqs, |reqs|, now) == b.capacity as real
  {}

  lemma LevelAtStart(b: Bucket, now: real)
    requires b == FullBucket(b.capacity, b.refillRate, b.lastRefill) && b.refillRate >= 0.0 && b.lastRefill <= now
    ensures Level(b, [], now) == b.capacity as real
  {}

  lemma LevelLater(b: Bucket, reqs: seq<Request>, now: real)
    requires reqs != [] && reqs[|reqs| - 1].now <= now
    ensures var before, last := reqs[..|reqs| - 1], reqs[|reqs| - 1];
            Level(b, reqs, now) == MinReal(Level(b, before, last.now) - LastTaken(b, reqs) as real
                                           + Flow(b.refillRate, now - last.now), b.capacity as real)
  {
    hide Flow;
    FlowAdds(b.refillRate, 0.0, 0.0);
    AfterShape(b, reqs);
    AfterShape(b, reqs[..|reqs| - 1]);
  }

  lemma RoomLater(b: Bucket, reqs: seq<Request>, i: nat, now: real)
    requires i < |reqs|
    ensures var before, last := reqs[..|reqs| - 1], reqs[|reqs| - 1];
            Room(b, reqs, i, now)
            == Room(b, before, i, last.now) - LastTaken(b, reqs) as real + Flow(b.refillRate, now - last.now)
  {
    hide Flow;
    var last := reqs[|reqs| - 1];
    FlowAdds(b.refillRate, last.now - reqs[i].now, now - last.now);
    assert (last.now - reqs[i].now) + (now - last.now) == now - reqs[i].now;
    FlowAdds(b.refillRate, 0.0, 0.0);
  }

  /** With `n` more granted now the window that starts with request `j` holds no more than the capacity and what
      flows in over its length. */
  predicate WindowFits(b: Bucket, reqs: seq<Request>, j: nat, n: nat, now: real) {
    (GrantedSince(b, reqs, j) + n) as real <= b.capacity as real + Flow(b.refillRate, now - StartOf(reqs, j, now))
  }

  /** A request is granted exactly when every window that ends with it would then still fit. */
  lemma GrantedIff(b: Bucket, reqs: seq<Request>, n: nat, now: real)
    requires b == FullBucket(b.capacity, b.refillRate, b.lastRefill) && b.refillRate >= 0.0 && Ordered(b, reqs, now)
    ensures After(b, reqs).Grants(n, now) <==> forall j: nat | j <= |reqs| :: WindowFits(b, reqs, j, n, now)
  {
    hide Flow, FullBucket, Ordered, After, StartOf;
    var k := LevelIsLeastRoom(b, reqs, now);
    assert After(b, reqs).Grants(n, now) == (Level(b, reqs, now) >= n as real);
    if After(b, reqs).Grants(n, now) {
      forall j: nat | j <= |reqs| ensures WindowFits(b, reqs, j, n, now) {
        assert n as real <= Room(b, reqs, j, now);
      }
    } else {
      assert Room(b, reqs, k, now) < n as real;
      assert !WindowFits(b, reqs, k, n, now);
    }
  }

  /** Over every window of time at most the capacity and the refill of the window is granted. */
  lemma {:induction false} WindowBound(b: Bucket, reqs: seq<Request>, j: nat, from: real, until: real)
    requires b == FullBucket(b.capacity, b.refillRate, b.lastRefill) && b.refillRate >= 0.0 && Ordered(b, reqs, until)
    requires from <= until && (j < |reqs| ==> from <= reqs[j].now)
    ensures GrantedSince(b, reqs, j) as real <= b.capacity as real + Flow(b.refillRate, until - from)
    decreases |reqs|
  {
    hide Flow, Bucket.Refill, FullBucket;
    FlowAdds(b.refillRate, 0.0, 0.0);
    FlowGrows(b.refillRate, 0.0, until - from);
    if j < |reqs| {
      var before, last := reqs[..|reqs| - 1], reqs[|reqs| - 1];
      if After(b, before).Grants(last.n, last.now) {
        GrantedIff(b, before, last.n, last.now);
        assert WindowFits(b, before, j, last.n, last.now);
        FlowGrows(b.refillRate, last.now - StartOf(before, j, last.now), until - from);
      } else {
        WindowBound(b, before, j, from, until);
      }
    }
  }

  // ----- handshakes -----

  datatype Limiter = Limiter(bucket: Bucket, pending: nat, maxPending: nat) {
    predicate Allows(now: real) {
      pending < maxPending && bucket.Grants(1, now)
    }

    function Start(now: real): Limiter {
      if pending >= maxPending then this
      else
        Limiter(bucket.Acquire(1, now), if bucket.Grants(1, now) then pending + 1 else pending, maxPending)
    }

    function Complete(): Limiter {
      if pending > 0 then this.(pending := pending - 1) else this
    }
  }

  class HandshakeRateLimiter {
    const bucket: TokenBucket
    var pendingCount: nat
    const maxPending: nat

    function View(): Limiter
      reads this, bucket
    {
      Limiter(bucket.View(), pendingCount, maxPending)
    }

    constructor WithParams(bucket: TokenBucket, maxPending: nat)
      ensures this.bucket == bucket && View() == Limiter(bucket.View(), 0, maxPending)
    {
      this.bucket, pendingCount, this.maxPending := bucket, 0, maxPending;
    }

    method StartHandshake(now: real) returns (ok: bool)
      modifies this, bucket
      ensures View() == old(View()).Start(now) && ok == old(View()).Allows(now)
    {
      if pendingCount >= maxPending {
        return false;
      }
      ok := bucket.TryAcquireN(1, now);
      if ok {
        pendingCount := pendingCount + 1;
      }
    }

    method CompleteHandshake()
      modifies this
      ensures View() == old(View()).Complete()
    {
      if pendingCount > 0 {
        pendingCount := pendingCount - 1;
      }
    }
  }

  datatype Event = Start(now: real) | Complete

  function LimiterAfter(l: Limiter, events: seq<Event>): Limiter {
    if events == [] then l
    else
      var before := LimiterAfter(l, events[..|events| - 1]);
      match events[|events| - 1]
      case Start(now) => before.Start(now)
      case Complete => before.Complete()
  }

  function Starts(l: Limiter, events: seq<Event>): nat {
    if events == [] then 0
    else
      var before, last := events[..|events| - 1], events[|events| - 1];
      Starts(l, before) + if last.Start? && LimiterAfter(l, before).Allows(last.now) then 1 else 0
  }

  function Completions(events: seq<Event>): nat {
    if events == [] then 0
    else Completions(events[..|events| - 1]) + if events[|events| - 1].Complete? then 1 else 0
  }

  /** Pending handshakes never exceed the maximum, and are the most that any final stretch of the run
      started without completing. */
  lemma {:induction false} PendingBalance(l: Limiter, events: seq<Event>) returns (j: nat)
    requires l.pending == 0
    ensures var after := LimiterAfter(l, events);
            && after.maxPending == l.maxPending && after.pending <= l.maxPending
            && (forall i: nat | i <= |events| :: after.pending >= Balance(l, events) - Balance(l, events[..i]))
            && j <= |events| && after.pending == Balance(l, events) - Balance(l, events[..j])
  {
    if events == [] {
      j := 0;
    } else {
      var before, last := events[..|events| - 1], events[|events| - 1];
      var k := PendingBalance(l, before);
      assert events[..|events|] == events;
      forall i: nat | i <= |before| ensures events[..i] == before[..i] {}
      assert before[..k] == events[..k];
      j := if last.Complete? && LimiterAfter(l, before).pending == 0 then |events| else k;
    }
  }

  /** Handshakes started less completions reported. */
  function Balance(l: Limiter, events: seq<Event>): int {
    Starts(l, events) - Completions(events)
  }

  /** The count is exactly starts less completions as long as no more were ever completed than started. */
  lemma PendingIsDifferenceIff(l: Limiter, events: seq<Event>)
    requires l.pending == 0
    ensures LimiterAfter(l, events).pending == Balance(l, events)
            <==> forall i: nat | i <= |events| :: Completions(events[..i]) <= Starts(l, events[..i])
  {
    var j := PendingBalance(l, events);
    assert events[..0] == [];
    assert Balance(l, events[..0]) == 0;
    if forall i: nat | i <= |events| :: Completions(events[..i]) <= Starts(l, events[..i]) {
      assert Balance(l, events[..j]) >= 0;
    }
    if LimiterAfter(l, events).pending == Balance(l, events) {
      forall i: nat | i <= |events| ensures Completions(events[..i]) <= Starts(l, events[..i]) {
        assert LimiterAfter(l, events).pending >= Balance(l, events) - Balance(l, events[..i]);
      }
    }
  }

  // ----- how many handshakes are started -----

  /** What is asked of the bucket in a run: one token for each start tried below the pending limit. */
  function Tried(l: Limiter, events: seq<Event>): seq<Request> {
    if events == [] then []
    else
      var before, last := events[..|events| - 1], events[|events| - 1];
      Tried(l, before)
      + if last.Start? && LimiterAfter(l, before).pending < l.maxPending then [Request(1, last.now)] else []
  }

  /** Starts that were allowed from event `j` on. */
  function StartedSince(l: Limiter, events: seq<Event>, j: nat): nat {
    if |events| <= j then 0
    else
      var before, last := events[..|events| - 1], events[|events| - 1];
      StartedSince(l, before, j) + if last.Start? && LimiterAfter(l, before).Allows(last.now) then 1 else 0
  }

  /** The limiter's bucket has seen exactly those requests. */
  lemma {:induction false} BucketOfRun(l: Limiter, events: seq<Event>)
    ensures LimiterAfter(l, events).bucket == After(l.bucket, Tried(l, events))
    ensures LimiterAfter(l, events).maxPending == l.maxPending
  {
    hide Bucket.Acquire, Bucket.Grants;
    if events != [] {
      var before, tried := events[..|events| - 1], Tried(l, events);
      BucketOfRun(l, before);
      if tried != Tried(l, before) {
        assert tried[..|tried| - 1] == Tried(l, before);
      }
    }
  }

  /** The starts allowed are the tokens granted. */
  lemma {:induction false} StartsAreGrants(l: Limiter, events: seq<Event>, j: nat)
    requires j <= |events|
    ensures |Tried(l, events[..j])| <= |Tried(l, events)|
    ensures StartedSince(l, events, j) == GrantedSince(l.bucket, Tried(l, events), |Tried(l, events[..j])|)
    decreases |events|
  {
    hide Bucket.Acquire, Bucket.Grants, After, LimiterAfter;
    if j == |events| {
      assert events[..j] == events;
    } else {
      var before := events[..|events| - 1];
      assert before[..j] == events[..j];
      BucketOfRun(l, before);
      StartsAreGrants(l, before, j);
      GrantedGrows(l, events, j);
    }
  }

  lemma GrantedGrows(l: Limiter, events: seq<Event>, j: nat)
    requires j < |events| && |Tried(l, events[..j])| <= |Tried(l, events[..|events| - 1])|
    requires var before := events[..|events| - 1];
             LimiterAfter(l, before).bucket == After(l.bucket, Tried(l, before))
             && LimiterAfter(l, before).maxPending == l.maxPending
    ensures var before, k := events[..|events| - 1], |Tried(l, events[..j])|;
            GrantedSince(l.bucket, Tried(l, events), k) - GrantedSince(l.bucket, Tried(l, before), k)
            == StartedSince(l, events, j) - StartedSince(l, before, j)
  {
    hide Bucket.Acquire, Bucket.Grants, After, LimiterAfter;
    var before, tried := events[..|events| - 1], Tried(l, events);
    if tried != Tried(l, before) {
      assert tried[..|tried| - 1] == Tried(l, before);
    }
  }

  /** The starts of a run do not go back in time. */
  ghost predicate StartsOrdered(l: Limiter, events: seq<Event>, now: real) {
    && (forall i | 0 <= i < |events| && events[i].Start? :: l.bucket.lastRefill <= events[i].now <= now)
    && (forall i, j | 0 <= i < j < |events| && events[i].Start? && events[j].Start? :: events[i].now <= events[j].now)
    && l.bucket.lastRefill <= now
  }

  /** Each request goes back to a start. */
  lemma {:induction false} TriedAt(l: Limiter, events: seq<Event>, i: nat) returns (j: nat)
    requires i < |Tried(l, events)|
    ensures j < |events| && events[j].Start? && events[j].now == Tried(l, events)[i].now
    ensures |Tried(l, events[..j])| == i && |Tried(l, events[..j + 1])| == i + 1
    decreases |events|
  {
    var n := |events| - 1;
    if i < |Tried(l, events[..n])| {
      j := TriedAt(l, events[..n], i);
      assert events[..n][..j] == events[..j] && events[..n][..j + 1] == events[..j + 1];
    } else {
      j := n;
      assert events[..n + 1] == events;
    }
  }

  /** What was tried before an event is tried first. */
  lemma {:induction false} TriedGrows(l: Limiter, events: seq<Event>, j: nat, k: nat)
    requires j <= k <= |events|
    ensures |Tried(l, events[..j])| <= |Tried(l, events[..k])|
    decreases k
  {
    if j < k {
      assert events[..k][..k - 1] == events[..k - 1];
      TriedGrows(l, events, j, k - 1);
    }
  }

  lemma TriedOrdered(l: Limiter, events: seq<Event>, now: real)
    requires StartsOrdered(l, events, now)
    ensures Ordered(l.bucket, Tried(l, events), now)
  {
    var tried := Tried(l, events);
    hide Tried;
    forall i | 0 <= i < |tried| ensures l.bucket.lastRefill <= tried[i].now <= now {
      var j := TriedAt(l, events, i);
    }
    forall i, k | 0 <= i < k < |tried| ensures tried[i].now <= tried[k].now {
      var a := TriedAt(l, events, i);
      var b := TriedAt(l, events, k);
      if b <= a {
        TriedGrows(l, events, b + 1, a + 1);
      }
    }
  }

  /** Over every window of time at most the capacity and the refill of the window is started. */
  lemma StartsInWindow(l: Limiter, events: seq<Event>, j: nat, from: real, until: real)
    requires l.bucket == FullBucket(l.bucket.capacity, l.bucket.refillRate, l.bucket.lastRefill)
    requires l.bucket.refillRate >= 0.0 && StartsOrdered(l, events, until) && from <= until && j <= |events|
    requires forall i | j <= i < |events| && events[i].Start? :: from <= events[i].now
    ensures StartedSince(l, events, j) as real <= l.bucket.capacity as real + Flow(l.bucket.refillRate, until - from)
  {
    hide Flow, FullBucket, Bucket.Acquire, Bucket.Grants, LimiterAfter, StartedSince, GrantedSince, Tried;
    var tried, k := Tried(l, events), |Tried(l, events[..j])|;
    StartsAreGrants(l, events, j);
    TriedOrdered(l, events, until);
    if k < |tried| {
      var i := TriedAt(l, events, k);
      if i < j {
        TriedGrows(l, events, i + 1, j);
      }
    }
    WindowBound(l.bucket, tried, k, from, until);
  }

  /** When the window that starts with event `j` began; the last window is the present moment. */
  function TimeOf(events: seq<Event>, j: nat, now: real): real
    requires j < |events| ==> events[j].Start?
  {
    if j < |events| then events[j].now else now
  }

  /** One more start now keeps the window that starts with event `j` within the capacity and what flows in over
      its length. */
  predicate WindowAllows(l: Limiter, events: seq<Event>, j: nat, now: real)
    requires j < |events| ==> events[j].Start?
  {
    (StartedSince(l, events, j) + 1) as real
    <= l.bucket.capacity as real + Flow(l.bucket.refillRate, now - TimeOf(events, j, now))
  }

  /** A start is allowed exactly when fewer than the maximum are pending and every window that ends with it
      allows it. */
  lemma StartAllowedIff(l: Limiter, events: seq<Event>, now: real)
    requires l.bucket == FullBucket(l.bucket.capacity, l.bucket.refillRate, l.bucket.lastRefill)
    requires l.bucket.refillRate >= 0.0 && StartsOrdered(l, events, now)
    ensures LimiterAfter(l, events).Allows(now)
            <==> LimiterAfter(l, events).pending < l.maxPending
                 && forall j: nat | j <= |events| && (j < |events| ==> events[j].Start?) ::
                      WindowAllows(l, events, j, now)
  {
    var b, tried := l.bucket, Tried(l, events);
    BucketOfRun(l, events);
    TriedOrdered(l, events, now);
    GrantedIff(b, tried, 1, now);
    hide Flow, StartsOrdered, FullBucket, After, LimiterAfter, Bucket.Grants, Tried, Ordered, WindowAllows, WindowFits;
    if forall j: nat | j <= |events| && (j < |events| ==> events[j].Start?) :: WindowAllows(l, events, j, now) {
      forall i: nat | i <= |tried| ensures WindowFits(b, tried, i, 1, now) {
        var j := WindowOfRequest(l, events, i, now);
      }
    }
    if forall i: nat | i <= |tried| :: WindowFits(b, tried, i, 1, now) {
      forall j: nat | j <= |events| && (j < |events| ==> events[j].Start?) ensures WindowAllows(l, events, j, now) {
        var i := RequestOfWindow(l, events, j, now);
      }
    }
  }

  lemma WindowOfRequest(l: Limiter, events: seq<Event>, i: nat, now: real) returns (j: nat)
    requires i <= |Tried(l, events)|
    ensures j <= |events| && (j < |events| ==> events[j].Start?)
    ensures WindowAllows(l, events, j, now) == WindowFits(l.bucket, Tried(l, events), i, 1, now)
  {
    hide Flow, Tried, StartedSince, GrantedSince, After, LimiterAfter;
    if i < |Tried(l, events)| {
      j := TriedAt(l, events, i);
    } else {
      j := |events|;
      assert events[..j] == events;
    }
    StartsAreGrants(l, events, j);
  }

  lemma RequestOfWindow(l: Limiter, events: seq<Event>, j: nat, now: real) returns (i: nat)
    requires j <= |events| && (j < |events| ==> events[j].Start?) && StartsOrdered(l, events, now)
    requires l.bucket.refillRate >= 0.0
    ensures i <= |Tried(l, events)|
    ensures WindowFits(l.bucket, Tried(l, events), i, 1, now) ==> WindowAllows(l, events, j, now)
  {
    hide Flow, Tried, StartedSince, GrantedSince, After, LimiterAfter;
    StartsAreGrants(l, events, j);
    TriedOrdered(l, events, now);
    i := |Tried(l, events[..j])|;
    assert events[..|events|] == events;
    if i < |Tried(l, events)| {
      var k := TriedAt(l, events, i);
      if k < j {
        TriedGrows(l, events, k + 1, j);
      }
    }
    FlowGrows(l.bucket.refillRate, now - StartOf(Tried(l, events), i, now), now - TimeOf(events, j, now));
  }
}
