/**
  The source side of path MTU tracking: lower reports apply at once, a higher one only after three reports
  of the same value over two notification intervals.
*/
module PathMtu {
  import opened Basics

  const U16_MAX: nat := 65535

  /** The eight-bit counter wraps. */
  datatype Mtu = Mtu(current: nat, interval: nat, count: nat, first: Option<nat>, pending: nat) {

    /** The increase under way once `reported`, a higher value, has been counted. */
    function Counted(reported: nat, now: nat): Mtu {
      if reported == pending then this.(count := (count + 1) % 256)
      else this.(pending := reported, count := 1, first := Some(now))
    }

    predicate Confirmed(now: nat) {
      count >= 3 && first.Some? && Since(first.value, now) >= 2 * interval
    }

    function Apply(reported: nat, now: nat): Mtu {
      if reported < current then this.(current := reported, count := 0, first := None)
      else if reported > current then
        var c := Counted(reported, now);
        if c.Confirmed(now) then c.(current := reported, count := 0, first := None) else c
      else this
    }

    function Seed(outbound: nat): Mtu {
      if outbound < current then this.(current := outbound) else this
    }
  }

  const START := Mtu(U16_MAX, 10_000, 0, None, 0)

  class PathMtuState {
    var currentMtu: nat
    var notificationInterval: nat
    var consecutiveIncreaseCount: nat
    var firstIncreaseTime: Option<nat>
    var pendingIncreaseMtu: nat

    function View(): Mtu
      reads this
    {
      Mtu(currentMtu, notificationInterval, consecutiveIncreaseCount, firstIncreaseTime, pendingIncreaseMtu)
    }

    constructor ()
      ensures View() == START
    {
      currentMtu, notificationInterval, consecutiveIncreaseCount := U16_MAX, 10_000, 0;
      firstIncreaseTime, pendingIncreaseMtu := None, 0;
    }

    method UpdateIntervalFromSrtt(fiveSrttMs: nat)
      modifies this`notificationInterval
      ensures notificationInterval == if fiveSrttMs > 10_000 then fiveSrttMs else 10_000
    {
      notificationInterval := if fiveSrttMs > 10_000 then fiveSrttMs else 10_000;
    }

    method SeedSourceMtu(outboundMtu: nat)
      modifies this`currentMtu
      ensures View() == old(View()).Seed(outboundMtu) && currentMtu <= outboundMtu && currentMtu <= old(currentMtu)
    {
      if outboundMtu < currentMtu {
        currentMtu := outboundMtu;
      }
    }

    method ApplyNotification(reportedMtu: nat, now: nat) returns (changed: bool)
      modifies this
      ensures View() == old(View()).Apply(reportedMtu, now)
      ensures changed <==> currentMtu != old(currentMtu)
      ensures reportedMtu < old(currentMtu) ==> currentMtu == reportedMtu
    {
      if reportedMtu < currentMtu {
        currentMtu, consecutiveIncreaseCount, firstIncreaseTime := reportedMtu, 0, None;
        return true;
      }
      if reportedMtu > currentMtu {
        if reportedMtu == pendingIncreaseMtu {
          consecutiveIncreaseCount := (consecutiveIncreaseCount + 1) % 256;
        } else {
          pendingIncreaseMtu, consecutiveIncreaseCount, firstIncreaseTime := reportedMtu, 1, Some(now);
        }
        if consecutiveIncreaseCount >= 3 && firstIncreaseTime.Some? {
          var required := notificationInterval * 2;
          if Since(firstIncreaseTime.value, now) >= required {
            currentMtu, consecutiveIncreaseCount, firstIncreaseTime := reportedMtu, 0, None;
            return true;
          }
        }
      }
      changed := false;
    }
  }

  // ----- whole runs -----

  datatype Event = Notify(mtu: nat, now: nat) | Seed(outbound: nat) | SetInterval(interval: nat)

  function After(s: Mtu, events: seq<Event>): Mtu {
    if events == [] then s
    else
      var before := After(s, events[..|events| - 1]);
      match events[|events| - 1]
      case Notify(mtu, now) => before.Apply(mtu, now)
      case Seed(outbound) => before.Seed(outbound)
      case SetInterval(interval) => before.(interval := interval)
  }

  /** Reports of a value from event `i` on. */
  function Reports(events: seq<Event>, i: nat, mtu: nat): nat {
    if |events| <= i then 0
    else
      var last := events[|events| - 1];
      Reports(events[..|events| - 1], i, mtu) + if last.Notify? && last.mtu == mtu then 1 else 0
  }

  /** Since event `i` every report was of `mtu` or of the value in force at the time: no decrease and no
      other higher value. */
  ghost predicate Steady(events: seq<Event>, i: nat, mtu: nat) {
    forall k | i < k < |events| && events[k].Notify? ::
      events[k].mtu == mtu || events[k].mtu == After(START, events[..k]).current
  }

  /** The report that started the increase under way. */
  ghost predicate StartsIncrease(events: seq<Event>, i: nat, mtu: nat, t: nat) {
    i < |events| && events[i] == Notify(mtu, t) && Steady(events, i, mtu)
  }

  lemma SteadyExtends(events: seq<Event>, e: Event, i: nat, mtu: nat)
    requires i < |events| && Steady(events, i, mtu)
    requires e.Notify? ==> e.mtu == mtu || e.mtu == After(START, events).current
    ensures Steady(events + [e], i, mtu)
  {
    var all := events + [e];
    forall k | i < k < |all| && all[k].Notify?
      ensures all[k].mtu == mtu || all[k].mtu == After(START, all[..k]).current
    {
      if k < |events| {
        assert all[..k] == events[..k];
      } else {
        assert all[..k] == events;
      }
    }
  }

  /** An increase under way goes back to a report of its value, steady since, and its count is no more than
      the reports since. */
  lemma {:induction false} IncreaseUnderWay(events: seq<Event>) returns (i: nat)
    ensures var s := After(START, events);
            s.first.Some? ==> StartsIncrease(events, i, s.pending, s.first.value)
                              && s.count <= Reports(events, i, s.pending)
  {
    i := 0;
    if events != [] {
      var n := |events| - 1;
      var before, e := events[..n], events[n];
      assert before + [e] == events;
      var s, s' := After(START, before), After(START, events);
      var k := IncreaseUnderWay(before);
      if s'.first.Some? {
        if s.first.Some? && s'.first == s.first && s'.pending == s.pending {
          i := k;
          SteadyExtends(before, e, i, s.pending);
          assert events[i] == before[i];
        } else {
          i := n;
          OneReport(events, e.mtu);
        }
      }
    }
  }

  lemma OneReport(events: seq<Event>, mtu: nat)
    requires events != [] && events[|events| - 1].Notify? && events[|events| - 1].mtu == mtu
    ensures Reports(events, |events| - 1, mtu) == 1
  {}

  /** Safety over every run: only a notification raises the MTU, only to its own value, and that was reported
      at least three times with no decrease and no other higher value in between, the first two intervals
      before the last. */
  lemma RaiseIsJustified(events: seq<Event>, e: Event) returns (i: nat)
    requires After(START, events + [e]).current > After(START, events).current
    ensures e.Notify? && After(START, events + [e]).current == e.mtu
    ensures i < |events| && events[i].Notify? && events[i].mtu == e.mtu && Steady(events, i, e.mtu)
    ensures Reports(events + [e], i, e.mtu) >= 3
    ensures Since(events[i].now, e.now) >= 2 * After(START, events).interval
  {
    i := IncreaseUnderWay(events);
    assert (events + [e])[..|events|] == events;
  }

  // ----- the increase under way, from the reports alone -----

  /** The value of the last report that was above the MTU of its moment. */
  function Proposed(events: seq<Event>): nat {
    if events == [] then 0
    else
      var before, last := events[..|events| - 1], events[|events| - 1];
      if last.Notify? && last.mtu > After(START, before).current then last.mtu else Proposed(before)
  }

  /** Did the last event, a report, change the MTU? A seed that does so is no report. */
  predicate Settles(events: seq<Event>)
    requires events != []
  {
    events[|events| - 1].Notify? && After(START, events).current != After(START, events[..|events| - 1]).current
  }

  /** Reports of the proposed value in a row, since it was first proposed or a report last changed the MTU. Those
      of the MTU itself are not in the way. */
  function InARow(events: seq<Event>): nat {
    if events == [] then 0
    else
      var before, last := events[..|events| - 1], events[|events| - 1];
      if Settles(events) then 0
      else if last.Notify? && last.mtu > After(START, before).current then
        if last.mtu == Proposed(before) then InARow(before) + 1 else 1
      else InARow(before)
  }

  /** When the proposed value was first proposed, unless a report changed the MTU since. */
  function ProposedAt(events: seq<Event>): Option<nat> {
    if events == [] then None
    else
      var before, last := events[..|events| - 1], events[|events| - 1];
      if Settles(events) then None
      else if last.Notify? && last.mtu > After(START, before).current && last.mtu != Proposed(before)
      then Some(last.now)
      else ProposedAt(before)
  }

  /** The notification interval: the one set last. */
  function IntervalOf(events: seq<Event>): nat {
    if events == [] then 10_000
    else
      match events[|events| - 1]
      case SetInterval(interval) => interval
      case _ => IntervalOf(events[..|events| - 1])
  }

  lemma {:induction false} IncreaseIs(events: seq<Event>)
    ensures var s := After(START, events);
            && s.pending == Proposed(events) && s.count == InARow(events) % 256 && s.first == ProposedAt(events)
            && s.interval == IntervalOf(events)
  {
    if events != [] {
      IncreaseIs(events[..|events| - 1]);
    }
  }

  /** A report raises the MTU, whatever came before, exactly if it is above it, repeats what was proposed, and
      is with the wrapped count at least the third in a row, two intervals after the first. */
  lemma RaiseIff(events: seq<Event>, mtu: nat, now: nat)
    ensures var before, after := After(START, events).current, After(START, events + [Notify(mtu, now)]).current;
            && (after > before <==>
                  && mtu > before && mtu == Proposed(events) && (InARow(events) + 1) % 256 >= 3
                  && ProposedAt(events).Some? && Since(ProposedAt(events).value, now) >= 2 * IntervalOf(events))
            && (after > before ==> after == mtu)
            && (after < before <==> mtu < before) && (after < before ==> after == mtu)
  {
    assert (events + [Notify(mtu, now)])[..|events|] == events;
    IncreaseIs(events);
  }

  /** The least of a value and everything reported or seeded. */
  function Least(mtu: nat, events: seq<Event>): nat {
    if events == [] then mtu
    else
      var before := Least(mtu, events[..|events| - 1]);
      match events[|events| - 1]
      case Notify(reported, _) => if reported < before then reported else before
      case Seed(outbound) => if outbound < before then outbound else before
      case SetInterval(_) => before
  }

  /** Nothing in the run raises the MTU. */
  ghost predicate NeverRaised(s: Mtu, events: seq<Event>) {
    forall k | 0 <= k < |events| :: After(s, events[..k + 1]).current <= After(s, events[..k]).current
  }

  /** Lower values apply at once: from any state until the next raise, the MTU is exactly the least of its
      value there and everything reported or seeded since. */
  lemma {:induction false} LeastUntilRaised(s: Mtu, events: seq<Event>)
    requires NeverRaised(s, events)
    ensures After(s, events).current == Least(s.current, events)
  {
    if events != [] {
      var n := |events| - 1;
      var before := events[..n];
      assert events[..n + 1] == events;
      forall k | 0 <= k < n ensures After(s, before[..k + 1]).current <= After(s, before[..k]).current {
        assert before[..k + 1] == events[..k + 1] && before[..k] == events[..k];
      }
      LeastUntilRaised(s, before);
    }
  }

  // ----- does a steady increase take effect? -----

  function AfterReports(s: Mtu, mtu: nat, times: seq<nat>): Mtu {
    if times == [] then s else AfterReports(s, mtu, times[..|times| - 1]).Apply(mtu, times[|times| - 1])
  }

  /** A decrease or a completed increase clears the time of the first report but keeps the proposed value. */
  predicate Stale(s: Mtu, mtu: nat) {
    s.pending == mtu && s.first.None?
  }

  /** Reports of the stale value never raise the MTU, however many and for however long. */
  lemma {:induction false} StaleNeverRaises(s: Mtu, mtu: nat, times: seq<nat>)
    requires mtu > s.current && Stale(s, mtu)
    ensures AfterReports(s, mtu, times).current == s.current && Stale(AfterReports(s, mtu, times), mtu)
  {
    if times != [] {
      StaleNeverRaises(s, mtu, times[..|times| - 1]);
    }
  }

  /** Where the count and the clock of an increase to `mtu` start: at the one under way, or at the first of
      these reports. */
  function CountBefore(s: Mtu, mtu: nat): nat {
    if s.pending == mtu then s.count else 0
  }

  function StartedAt(s: Mtu, mtu: nat, times: seq<nat>): nat
    requires times != []
  {
    if s.pending == mtu && s.first.Some? then s.first.value else times[0]
  }

  /** Report `i` confirms the increase: its wrapped count is at least three, two intervals after the start. */
  predicate Confirms(s: Mtu, mtu: nat, times: seq<nat>, i: nat)
    requires i < |times|
  {
    (CountBefore(s, mtu) + i + 1) % 256 >= 3 && Since(StartedAt(s, mtu, times), times[i]) >= 2 * s.interval
  }

  /** The increase under way after reports of a value that is not stale and that none of them confirms. */
  lemma {:induction false} Unconfirmed(s: Mtu, mtu: nat, times: seq<nat>)
    requires mtu > s.current && !Stale(s, mtu) && times != [] && s.count < 256
    requires forall i: nat | i < |times| :: !Confirms(s, mtu, times, i)
    ensures AfterReports(s, mtu, times)
            == Mtu(s.current, s.interval, (CountBefore(s, mtu) + |times|) % 256, Some(StartedAt(s, mtu, times)), mtu)
  {
    var n := |times| - 1;
    var before := times[..n];
    assert !Confirms(s, mtu, times, n);
    if n > 0 {
      forall i: nat | i < n ensures !Confirms(s, mtu, before, i) {
        assert !Confirms(s, mtu, times, i);
      }
      Unconfirmed(s, mtu, before);
      NextCount(CountBefore(s, mtu) + n);
    } else {
      assert before == [];
    }
  }

  lemma NextCount(c: nat)
    ensures (c % 256 + 1) % 256 == (c + 1) % 256
  {}

  /** Once raised, further reports of the value change nothing. */
  lemma {:induction false} StaysRaised(s: Mtu, mtu: nat, times: seq<nat>, n: nat)
    requires n <= |times| && AfterReports(s, mtu, times[..n]).current == mtu
    ensures AfterReports(s, mtu, times).current == mtu
    decreases |times| - n
  {
    if n < |times| {
      assert times[..n + 1][..n] == times[..n];
      StaysRaised(s, mtu, times, n + 1);
    } else {
      assert times[..n] == times;
    }
  }

  /** Exactly when reports of one higher value raise the MTU to it: the value is not stale, and some report
      comes two intervals after the start of the increase with a wrapped count of at least three. */
  lemma RaisedIff(s: Mtu, mtu: nat, times: seq<nat>)
    requires mtu > s.current && s.count < 256
    ensures AfterReports(s, mtu, times).current == mtu
            <==> !Stale(s, mtu) && exists i: nat :: i < |times| && Confirms(s, mtu, times, i)
  {
    if Stale(s, mtu) {
      StaleNeverRaises(s, mtu, times);
    } else if i: nat :| i < |times| && Confirms(s, mtu, times, i) {
      var k := FirstConfirming(s, mtu, times, i);
      RaisedBy(s, mtu, times, k);
      StaysRaised(s, mtu, times, k + 1);
    } else if times != [] {
      Unconfirmed(s, mtu, times);
    }
  }

  lemma {:induction false} FirstConfirming(s: Mtu, mtu: nat, times: seq<nat>, i: nat) returns (k: nat)
    requires i < |times| && Confirms(s, mtu, times, i)
    ensures k < |times| && Confirms(s, mtu, times, k)
    ensures forall j: nat | j < k :: !Confirms(s, mtu, times, j)
    decreases i
  {
    if j: nat :| j < i && Confirms(s, mtu, times, j) {
      k := FirstConfirming(s, mtu, times, j);
    } else {
      k := i;
    }
  }

  lemma RaisedBy(s: Mtu, mtu: nat, times: seq<nat>, k: nat)
    requires mtu > s.current && s.count < 256 && !Stale(s, mtu)
    requires k < |times| && Confirms(s, mtu, times, k) && forall j: nat | j < k :: !Confirms(s, mtu, times, j)
    ensures AfterReports(s, mtu, times[..k + 1]).current == mtu
  {
    var before := times[..k];
    assert times[..k + 1][..k] == before;
    if k > 0 {
      forall j: nat | j < k ensures !Confirms(s, mtu, before, j) {
        assert !Confirms(s, mtu, times, j);
      }
      Unconfirmed(s, mtu, before);
      NextCount(CountBefore(s, mtu) + k);
    } else {
      assert before == [];
    }
  }

  /** The documented rule, three reports over two intervals, while the count does not wrap: met exactly unless
      the value is stale. */
  lemma RaisedAsDocumented(s: Mtu, mtu: nat, times: seq<nat>)
    requires mtu > s.current && |times| >= 3 && s.count + |times| < 256
    requires s.first.Some? ==> s.first.value <= times[0]
    requires times[0] <= times[|times| - 1] && Since(times[0], times[|times| - 1]) >= 2 * s.interval
    ensures AfterReports(s, mtu, times).current == mtu <==> !Stale(s, mtu)
  {
    RaisedIff(s, mtu, times);
    if !Stale(s, mtu) {
      assert Confirms(s, mtu, times, |times| - 1);
    }
  }

  /** The wrapped count misses an increase: 256 reports of 1500, all but the last at once. */
  lemma WrapMissesIncrease()
    ensures var s := Mtu(1400, 10_000, 0, None, 0);
            var times := seq(256, i => if i < 255 then 0 else 20_000);
            !Stale(s, 1500) && Since(times[0], times[255]) >= 2 * s.interval
            && AfterReports(s, 1500, times).current == 1400
  {
    var s := Mtu(1400, 10_000, 0, None, 0);
    var times := seq(256, i => if i < 255 then 0 else 20_000);
    forall i: nat | i < 256 ensures !Confirms(s, 1500, times, i) {}
    Unconfirmed(s, 1500, times);
  }

  /** The count is always one the machine can hold. */
  lemma {:induction false} CountFits(events: seq<Event>)
    ensures After(START, events).count < 256
  {
    if events != [] {
      CountFits(events[..|events| - 1]);
    }
  }

  function Notifications(mtu: nat, times: seq<nat>): seq<Event> {
    seq(|times|, i requires 0 <= i < |times| => Notify(mtu, times[i]))
  }

  lemma {:induction false} ReportsInRun(events: seq<Event>, mtu: nat, times: seq<nat>)
    ensures After(START, events + Notifications(mtu, times)) == AfterReports(After(START, events), mtu, times)
  {
    var all := events + Notifications(mtu, times);
    if times == [] {
      assert all == events;
    } else {
      var before := times[..|times| - 1];
      assert all[..|all| - 1] == events + Notifications(mtu, before);
      ReportsInRun(events, mtu, before);
    }
  }

  /** The exact condition in every run: after any history, reports of one higher value raise the MTU to it if
      and only if the value is not stale and one of them confirms the increase. */
  lemma RaisedInRunIff(events: seq<Event>, mtu: nat, times: seq<nat>)
    requires mtu > After(START, events).current
    ensures After(START, events + Notifications(mtu, times)).current == mtu
            <==> !Stale(After(START, events), mtu)
                 && exists i: nat :: i < |times| && Confirms(After(START, events), mtu, times, i)
  {
    CountFits(events);
    ReportsInRun(events, mtu, times);
    RaisedIff(After(START, events), mtu, times);
  }

  /** The stale case arises in ordinary use: 1500 confirmed, then 1400, then 1500 again. */
  lemma StaleReachable() returns (events: seq<Event>)
    ensures var s := After(START, events); s.current == 1400 && Stale(s, 1500)
  {
    var e := [Notify(1400, 0), Notify(1500, 1), Notify(1500, 10_001), Notify(1500, 20_001), Notify(1400, 30_000)];
    events := e;
    assert e[..5][..4] == e[..4] && e[..4][..3] == e[..3] && e[..3][..2] == e[..2] && e[..2][..1] == e[..1]
           && e[..1][..0] == [];
    assert After(START, e[..1]) == Mtu(1400, 10_000, 0, None, 0);
    assert After(START, e[..2]) == Mtu(1400, 10_000, 1, Some(1), 1500);
    assert After(START, e[..3]) == Mtu(1400, 10_000, 2, Some(1), 1500);
    assert After(START, e[..4]) == Mtu(1500, 10_000, 0, None, 1500);
    assert e[..5] == e;
  }
}
