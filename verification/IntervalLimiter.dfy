/**
  The limiter of forwarded lookups and the limiter of routing errors: at most one grant per target in an
  interval, over a map of last grants that is pruned by age.
*/
module IntervalLimiter {
  import opened Basics

  /** Grants are refused while the last one for the target is too young. */
  predicate Allows(last: map<NodeAddr, nat>, minInterval: nat, target: NodeAddr, now: nat) {
    target in last ==> Since(last[target], now) >= minInterval
  }

  function Young(last: map<NodeAddr, nat>, maxAge: nat, now: nat): map<NodeAddr, nat> {
    map t | t in last && Since(last[t], now) < maxAge :: last[t]
  }

  function Asked(last: map<NodeAddr, nat>, minInterval: nat, maxAge: nat, target: NodeAddr, now: nat): map<NodeAddr,
      nat> {
    if Allows(last, minInterval, target, now) then Young(last[target := now], maxAge, now) else last
  }

  class IntervalLimiter {
    var last: map<NodeAddr, nat>
    const minInterval: nat
    const maxAge: nat

    constructor (minInterval: nat, maxAge: nat)
      ensures last == map[] && this.minInterval == minInterval && this.maxAge == maxAge
    {
      last, this.minInterval, this.maxAge := map[], minInterval, maxAge;
    }

    method Ask(target: NodeAddr, now: nat) returns (ok: bool)
      modifies this
      ensures ok == Allows(old(last), minInterval, target, now)
      ensures last == Asked(old(last), minInterval, maxAge, target, now)
    {
      if target in last && Since(last[target], now) < minInterval {
        return false;
      }
      last := last[target := now];
      Cleanup(now);
      ok := true;
    }

    /** Forget grants that are old, in whatever order the map is walked. */
    method Cleanup(now: nat)
      modifies this
      ensures last == Young(old(last), maxAge, now)
    {
      ghost var was := last;
      var keys := last.Keys;
      while keys != {}
        invariant keys <= was.Keys
        invariant forall t :: t in last <==> t in was && (t in keys || Since(was[t], now) < maxAge)
        invariant forall t | t in last :: last[t] == was[t]
        decreases |keys|
      {
        var t :| t in keys;
        if Since(last[t], now) >= maxAge {
          last := last - {t};
        }
        keys := keys - {t};
      }
    }
  }

  // ----- whole runs -----

  datatype Ask = Ask(target: NodeAddr, now: nat)

  ghost predicate Ordered(asks: seq<Ask>) {
    forall i, j | 0 <= i < j < |asks| :: asks[i].now <= asks[j].now
  }

  function PrunedAfter(minInterval: nat, maxAge: nat, asks: seq<Ask>): map<NodeAddr, nat> {
    if asks == [] then map[]
    else
      var a := asks[|asks| - 1];
      Asked(PrunedAfter(minInterval, maxAge, asks[..|asks| - 1]), minInterval, maxAge, a.target, a.now)
  }

  /** Would the limiter with pruning grant `a` after these? */
  predicate Grants(minInterval: nat, maxAge: nat, asks: seq<Ask>, a: Ask) {
    Allows(PrunedAfter(minInterval, maxAge, asks), minInterval, a.target, a.now)
  }

  /** The last grants, never forgotten. */
  function GrantsAfter(minInterval: nat, asks: seq<Ask>): map<NodeAddr, nat> {
    if asks == [] then map[]
    else
      var before, a := GrantsAfter(minInterval, asks[..|asks| - 1]), asks[|asks| - 1];
      if Allows(before, minInterval, a.target, a.now) then before[a.target := a.now] else before
  }

  predicate GrantsUnpruned(minInterval: nat, asks: seq<Ask>, a: Ask) {
    Allows(GrantsAfter(minInterval, asks), minInterval, a.target, a.now)
  }

  /** What was forgotten was older than the maximum age already. */
  ghost predicate Agree(kept: map<NodeAddr, nat>, all: map<NodeAddr, nat>, maxAge: nat, now: nat) {
    && (forall t | t in kept :: t in all && kept[t] == all[t])
    && (forall t | t in all :: all[t] <= now)
    && forall t | t in all && t !in kept :: all[t] + maxAge <= now
  }

  lemma AgreeStep(kept: map<NodeAddr, nat>, all: map<NodeAddr, nat>, minInterval: nat, maxAge: nat, target: NodeAddr,
      now: nat)
    requires minInterval <= maxAge && Agree(kept, all, maxAge, now)
    ensures Allows(kept, minInterval, target, now) == Allows(all, minInterval, target, now)
    ensures Agree(Asked(kept, minInterval, maxAge, target, now),
                  if Allows(all, minInterval, target, now) then all[target := now] else all, maxAge, now)
  {}

  lemma {:induction false} OnlyOldForgotten(minInterval: nat, maxAge: nat, asks: seq<Ask>, now: nat)
    requires minInterval <= maxAge && Ordered(asks) && (asks != [] ==> asks[|asks| - 1].now <= now)
    ensures Agree(PrunedAfter(minInterval, maxAge, asks), GrantsAfter(minInterval, asks), maxAge, now)
  {
    if asks != [] {
      var before, a := asks[..|asks| - 1], asks[|asks| - 1];
      OnlyOldForgotten(minInterval, maxAge, before, a.now);
      AgreeStep(PrunedAfter(minInterval, maxAge, before), GrantsAfter(minInterval, before), minInterval, maxAge,
                a.target, a.now);
    }
  }

  /** Pruning never changes an answer, on any run of the clock, exactly when entries are kept at least as
      long as the interval. */
  lemma PruningHarmlessIff(minInterval: nat, maxAge: nat)
    ensures (forall asks: seq<Ask>, a: Ask | Ordered(asks + [a]) ::
               Grants(minInterval, maxAge, asks, a) == GrantsUnpruned(minInterval, asks, a))
            <==> minInterval <= maxAge
  {
    if minInterval <= maxAge {
      forall asks: seq<Ask>, a: Ask | Ordered(asks + [a])
        ensures Grants(minInterval, maxAge, asks, a) == GrantsUnpruned(minInterval, asks, a)
      {
        PruningHarmless(minInterval, maxAge, asks, a);
      }
    } else {
      PruningForgetsTooSoon(minInterval, maxAge);
    }
  }

  lemma PruningHarmless(minInterval: nat, maxAge: nat, asks: seq<Ask>, a: Ask)
    requires minInterval <= maxAge && Ordered(asks + [a])
    ensures Grants(minInterval, maxAge, asks, a) == GrantsUnpruned(minInterval, asks, a)
  {
    var all := asks + [a];
    assert all[|asks|] == a;
    forall i, j | 0 <= i < j < |asks| ensures asks[i].now <= asks[j].now {
      assert all[i] == asks[i] && all[j] == asks[j];
    }
    if asks != [] {
      assert all[|asks| - 1] == asks[|asks| - 1];
    }
    OnlyOldForgotten(minInterval, maxAge, asks, a.now);
  }

  /** Otherwise: a grant for 1 at time 0, a grant for 2 just when the first is pruned, and 1 again. */
  lemma PruningForgetsTooSoon(minInterval: nat, maxAge: nat)
    requires maxAge < minInterval
    ensures var asks, a := [Ask(1, 0), Ask(2, maxAge)], Ask(1, maxAge);
            Ordered(asks + [a]) && Grants(minInterval, maxAge, asks, a) && !GrantsUnpruned(minInterval, asks, a)
  {
    var asks := [Ask(1, 0), Ask(2, maxAge)];
    assert asks[..1] == [Ask(1, 0)] && asks[..1][..0] == [];
    assert PrunedAfter(minInterval, maxAge, asks[..1]) == Young(map[1 := 0], maxAge, 0);
    assert GrantsAfter(minInterval, asks[..1]) == map[1 := 0];
    assert asks[..|asks| - 1] == asks[..1];
    assert 1 !in PrunedAfter(minInterval, maxAge, asks);
    assert GrantsAfter(minInterval, asks) == map[1 := 0, 2 := maxAge];
  }

  // ----- what the grants mean -----

  /** Was ask `i` granted? */
  predicate Granted(minInterval: nat, maxAge: nat, asks: seq<Ask>, i: nat)
    requires i < |asks|
  {
    Grants(minInterval, maxAge, asks[..i], asks[i])
  }

  /** An earlier grant for the same target that is too recent. */
  predicate Blocks(minInterval: nat, maxAge: nat, asks: seq<Ask>, i: nat, a: Ask)
    requires i < |asks|
  {
    Granted(minInterval, maxAge, asks, i) && asks[i].target == a.target && Since(asks[i].now, a.now) < minInterval
  }

  predicate IsGrantFor(minInterval: nat, maxAge: nat, asks: seq<Ask>, i: nat, target: NodeAddr) {
    i < |asks| && Granted(minInterval, maxAge, asks, i) && asks[i].target == target
  }

  lemma GrantInPrefix(minInterval: nat, maxAge: nat, asks: seq<Ask>, i: nat, target: NodeAddr)
    requires i < |asks| - 1
    ensures IsGrantFor(minInterval, maxAge, asks[..|asks| - 1], i, target)
            == IsGrantFor(minInterval, maxAge, asks, i, target)
  {
    assert asks[..|asks| - 1][..i] == asks[..i];
  }

  lemma GrantedAtEnd(minInterval: nat, maxAge: nat, asks: seq<Ask>)
    requires minInterval <= maxAge && Ordered(asks) && asks != []
    ensures Granted(minInterval, maxAge, asks, |asks| - 1)
            == GrantsUnpruned(minInterval, asks[..|asks| - 1], asks[|asks| - 1])
  {
    assert asks[..|asks| - 1] + [asks[|asks| - 1]] == asks;
    PruningHarmless(minInterval, maxAge, asks[..|asks| - 1], asks[|asks| - 1]);
  }

  lemma GrantsAfterLast(minInterval: nat, asks: seq<Ask>)
    requires asks != []
    ensures var before, a := asks[..|asks| - 1], asks[|asks| - 1];
            GrantsAfter(minInterval, asks)
            == if GrantsUnpruned(minInterval, before, a) then GrantsAfter(minInterval, before)[a.target := a.now]
               else GrantsAfter(minInterval, before)
  {}

  /** The map holds the time of the latest grant, at `i` of the run. */
  lemma {:induction false} LastGrantIs(minInterval: nat, maxAge: nat, asks: seq<Ask>, target: NodeAddr) returns (i: nat)
    requires minInterval <= maxAge && Ordered(asks)
    ensures var all := GrantsAfter(minInterval, asks);
            && (target in all ==> IsGrantFor(minInterval, maxAge, asks, i, target) && asks[i].now == all[target])
            && (forall j: nat | IsGrantFor(minInterval, maxAge, asks, j, target) ::
                  target in all && asks[j].now <= all[target])
  {
    i := 0;
    if asks != [] {
      var n := |asks| - 1;
      var before, a := asks[..n], asks[n];
      var k := LastGrantIs(minInterval, maxAge, before, target);
      GrantedAtEnd(minInterval, maxAge, asks);
      GrantsAfterLast(minInterval, asks);
      var all := GrantsAfter(minInterval, asks);
      hide Granted, GrantsAfter, GrantsUnpruned;
      i := if a.target == target && GrantsUnpruned(minInterval, before, a) then n else k;
      if i < n {
        GrantInPrefix(minInterval, maxAge, asks, i, target);
      }
      forall j: nat | IsGrantFor(minInterval, maxAge, asks, j, target)
        ensures target in all && asks[j].now <= all[target]
      {
        if j < n {
          GrantInPrefix(minInterval, maxAge, asks, j, target);
        }
      }
    }
  }

  /** In any run a target is granted exactly when no grant for it lies within the interval before: grants
      are spaced, and nothing else is refused. */
  lemma GrantedIffSpaced(minInterval: nat, maxAge: nat, asks: seq<Ask>, a: Ask)
    requires minInterval <= maxAge && Ordered(asks + [a])
    ensures Grants(minInterval, maxAge, asks, a)
            <==> forall i: nat | i < |asks| :: !Blocks(minInterval, maxAge, asks, i, a)
  {
    var all := asks + [a];
    forall i, j | 0 <= i < j < |asks| ensures asks[i].now <= asks[j].now {
      assert all[i] == asks[i] && all[j] == asks[j];
    }
    PruningHarmless(minInterval, maxAge, asks, a);
    var i := LastGrantIs(minInterval, maxAge, asks, a.target);
    forall j: nat | j < |asks| && Granted(minInterval, maxAge, asks, j) && asks[j].target == a.target
      ensures IsGrantFor(minInterval, maxAge, asks, j, a.target)
    {}
    var last := GrantsAfter(minInterval, asks);
    if a.target in last {
      assert GrantsUnpruned(minInterval, asks, a) || Blocks(minInterval, maxAge, asks, i, a);
    }
  }

  // ----- for any interval and any age -----

  /** Some grant, for whatever target, came when the one at `i` had reached the maximum age, and pruned it. */
  ghost predicate Forgotten(minInterval: nat, maxAge: nat, asks: seq<Ask>, i: nat)
    requires i < |asks|
  {
    exists j: nat :: i <= j < |asks| && Granted(minInterval, maxAge, asks, j)
                     && Since(asks[i].now, asks[j].now) >= maxAge
  }

  /** The grants for a target that count: those not forgotten. */
  ghost predicate Remembered(minInterval: nat, maxAge: nat, asks: seq<Ask>, i: nat, target: NodeAddr) {
    IsGrantFor(minInterval, maxAge, asks, i, target) && !Forgotten(minInterval, maxAge, asks, i)
  }

  /** The map holds the time of the latest grant that counts. */
  ghost predicate Latest(minInterval: nat, maxAge: nat, asks: seq<Ask>, target: NodeAddr) {
    var kept := PrunedAfter(minInterval, maxAge, asks);
    && (target in kept ==>
          exists i: nat :: i < |asks| && Remembered(minInterval, maxAge, asks, i, target)
                           && asks[i].now == kept[target])
    && (forall i: nat | i < |asks| && Remembered(minInterval, maxAge, asks, i, target) ::
          target in kept && asks[i].now <= kept[target])
  }

  lemma GrantedInPrefix(minInterval: nat, maxAge: nat, asks: seq<Ask>, j: nat)
    requires j < |asks| - 1
    ensures Granted(minInterval, maxAge, asks[..|asks| - 1], j) == Granted(minInterval, maxAge, asks, j)
  {
    assert asks[..|asks| - 1][..j] == asks[..j];
  }

  /** An older grant is forgotten as before, or by the last one. */
  lemma ForgottenLater(minInterval: nat, maxAge: nat, asks: seq<Ask>, i: nat)
    requires i < |asks| - 1
    ensures Forgotten(minInterval, maxAge, asks, i)
            <==> Forgotten(minInterval, maxAge, asks[..|asks| - 1], i)
                 || (Granted(minInterval, maxAge, asks, |asks| - 1)
                     && Since(asks[i].now, asks[|asks| - 1].now) >= maxAge)
  {
    hide Granted;
    var n := |asks| - 1;
    forall j: nat | j < n ensures Granted(minInterval, maxAge, asks[..n], j) == Granted(minInterval, maxAge, asks, j) {
      GrantedInPrefix(minInterval, maxAge, asks, j);
    }
  }

  lemma {:induction false} LatestKept(minInterval: nat, maxAge: nat, asks: seq<Ask>, target: NodeAddr)
    requires Ordered(asks)
    ensures Latest(minInterval, maxAge, asks, target)
  {
    if asks != [] {
      var n := |asks| - 1;
      LatestKept(minInterval, maxAge, asks[..n], target);
      LatestStep(minInterval, maxAge, asks, target);
    }
  }

  /** Which grants count after one more request. */
  lemma RememberedLater(minInterval: nat, maxAge: nat, asks: seq<Ask>, i: nat, target: NodeAddr)
    requires i < |asks|
    ensures var n := |asks| - 1;
            var granted := Granted(minInterval, maxAge, asks, n);
            Remembered(minInterval, maxAge, asks, i, target)
            <==> if i < n then Remembered(minInterval, maxAge, asks[..n], i, target)
                               && !(granted && Since(asks[i].now, asks[n].now) >= maxAge)
                 else granted && asks[n].target == target && maxAge > 0
  {
    hide Granted, Forgotten;
    var n := |asks| - 1;
    if i < n {
      GrantInPrefix(minInterval, maxAge, asks, i, target);
      ForgottenLater(minInterval, maxAge, asks, i);
    } else if Granted(minInterval, maxAge, asks, n) {
      ForgottenAtOnce(minInterval, maxAge, asks);
    }
  }

  lemma LatestStep(minInterval: nat, maxAge: nat, asks: seq<Ask>, target: NodeAddr)
    requires Ordered(asks) && asks != [] && Latest(minInterval, maxAge, asks[..|asks| - 1], target)
    ensures Latest(minInterval, maxAge, asks, target)
  {
    var n := |asks| - 1;
    var before, kept := PrunedAfter(minInterval, maxAge, asks[..n]), PrunedAfter(minInterval, maxAge, asks);
    var granted := Granted(minInterval, maxAge, asks, n);
    assert granted == Allows(before, minInterval, asks[n].target, asks[n].now);
    assert kept == Asked(before, minInterval, maxAge, asks[n].target, asks[n].now);
    hide Granted, PrunedAfter, Allows, Remembered;
    forall i: nat | i < |asks| && Remembered(minInterval, maxAge, asks, i, target)
      ensures target in kept && asks[i].now <= kept[target]
    {
      RememberedLater(minInterval, maxAge, asks, i, target);
    }
    if target in kept {
      var i: nat := n;
      if !(granted && asks[n].target == target) {
        i :| i < n && Remembered(minInterval, maxAge, asks[..n], i, target) && asks[..n][i].now == before[target];
      }
      RememberedLater(minInterval, maxAge, asks, i, target);
      assert Remembered(minInterval, maxAge, asks, i, target);
    }
  }

  lemma ForgottenAtOnce(minInterval: nat, maxAge: nat, asks: seq<Ask>)
    requires asks != [] && Granted(minInterval, maxAge, asks, |asks| - 1)
    ensures Forgotten(minInterval, maxAge, asks, |asks| - 1) <==> maxAge == 0
  {
    hide Granted;
    var n := |asks| - 1;
    if maxAge == 0 {
      assert Since(asks[n].now, asks[n].now) >= maxAge;
    }
  }

  /** Exactly when a target is granted, for any interval and any age, longer or shorter: every grant for it within
      the interval before was pruned by another grant in between. */
  lemma GrantedIffForgotten(minInterval: nat, maxAge: nat, asks: seq<Ask>, a: Ask)
    requires Ordered(asks + [a])
    ensures Grants(minInterval, maxAge, asks, a)
            <==> forall i: nat | i < |asks| && Blocks(minInterval, maxAge, asks, i, a) ::
                   Forgotten(minInterval, maxAge, asks, i)
  {
    var all := asks + [a];
    forall i, j | 0 <= i < j < |asks| ensures asks[i].now <= asks[j].now {
      assert all[i] == asks[i] && all[j] == asks[j];
    }
    LatestKept(minInterval, maxAge, asks, a.target);
    var kept := PrunedAfter(minInterval, maxAge, asks);
    hide Granted, PrunedAfter, Forgotten;
    if a.target in kept {
      var i: nat :| i < |asks| && Remembered(minInterval, maxAge, asks, i, a.target) && asks[i].now == kept[a.target];
      assert Grants(minInterval, maxAge, asks, a) || Blocks(minInterval, maxAge, asks, i, a);
    }
    forall i: nat | i < |asks| && Blocks(minInterval, maxAge, asks, i, a) && !Forgotten(minInterval, maxAge, asks, i)
      ensures !Grants(minInterval, maxAge, asks, a)
    {
      assert Remembered(minInterval, maxAge, asks, i, a.target);
    }
  }
}
