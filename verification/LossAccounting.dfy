/**
  Frame loss as a receiver counts it and as its peer computes it from two reports: the gap tracker, the
  per-frame and per-report updates, and the delivery ratio.
*/
module LossAccounting {
  import opened Basics
  import opened Division

  const U16_MAX: nat := 65535

  function Min(a: nat, b: nat): nat {
    if a <= b then a else b
  }

  function Max(a: nat, b: nat): nat {
    if a >= b then a else b
  }

  // ----- gaps and bursts -----

  datatype Gap = Gap(expectedNext: Option<nat>, inBurst: bool, currentBurstLen: nat,
                     burstCount: nat, maxBurstLen: nat, totalBurstLen: nat) {

    function FinishBurst(): Gap {
      if inBurst then
        this.(maxBurstLen := Max(maxBurstLen, currentBurstLen), totalBurstLen := totalBurstLen + currentBurstLen,
              inBurst := false, currentBurstLen := 0)
      else this
    }

    /** The frames found missing before `counter`. */
    function LostAt(counter: nat): nat {
      if expectedNext.Some? && counter > expectedNext.value then counter - expectedNext.value else 0
    }

    function Observe(counter: nat): Gap {
      if expectedNext.None? then this.(expectedNext := Some(counter + 1))
      else
        var gap := LostAt(counter);
        var g :=
          if gap > 0 then
            if inBurst then this.(currentBurstLen := Min(currentBurstLen + gap % 65536, U16_MAX))
            else this.(inBurst := true, currentBurstLen := gap % 65536, burstCount := burstCount + 1)
          else FinishBurst();
        if counter >= expectedNext.value then g.(expectedNext := Some(counter + 1)) else g
    }

    function NewInterval(): Gap {
      FinishBurst().(burstCount := 0, maxBurstLen := 0, totalBurstLen := 0)
    }
  }

  const NO_GAPS := Gap(None, false, 0, 0, 0, 0)

  /** Mean burst length as a fixed-point number with eight fractional bits. */
  function MeanBurst(total: nat, count: nat): (m: nat)
    ensures m <= U16_MAX
  {
    if count > 0 then Min(total * 256 / count, U16_MAX) else 0
  }

  class GapTracker {
    var expectedNext: Option<nat>
    var inBurst: bool
    var currentBurstLen: nat
    var burstCount: nat
    var maxBurstLen: nat
    var totalBurstLen: nat

    function View(): Gap
      reads this
    {
      Gap(expectedNext, inBurst, currentBurstLen, burstCount, maxBurstLen, totalBurstLen)
    }

    constructor ()
      ensures View() == NO_GAPS
    {
      expectedNext, inBurst, currentBurstLen, burstCount, maxBurstLen, totalBurstLen := None, false, 0, 0, 0, 0;
    }

    method Observe(counter: nat) returns (lost: nat)
      modifies this
      ensures View() == old(View()).Observe(counter) && lost == old(View()).LostAt(counter)
    {
      if expectedNext.None? {
        expectedNext := Some(counter + 1);
        return 0;
      }
      var expected := expectedNext.value;
      if counter > expected {
        lost := counter - expected;
        if inBurst {
          currentBurstLen := Min(currentBurstLen + lost % 65536, U16_MAX);
        } else {
          inBurst := true;
          currentBurstLen := lost % 65536;
          burstCount := burstCount + 1;
        }
      } else {
        lost := 0;
        if inBurst {
          FinishBurst();
        }
      }
      if counter >= expected {
        expectedNext := Some(counter + 1);
      }
    }

    method FinishBurst()
      modifies this
      ensures View() == old(View()).FinishBurst()
    {
      if inBurst {
        maxBurstLen := Max(maxBurstLen, currentBurstLen);
        totalBurstLen := totalBurstLen + currentBurstLen;
        inBurst, currentBurstLen := false, 0;
      }
    }

    method TakeIntervalStats() returns (count: nat, maxLen: nat, meanLen: nat)
      modifies this
      ensures View() == old(View()).NewInterval()
      ensures var done := old(View()).FinishBurst();
              count == done.burstCount && maxLen == done.maxBurstLen && meanLen == MeanBurst(done.totalBurstLen, count)
    {
      FinishBurst();
      count, maxLen := burstCount, maxBurstLen;
      meanLen := MeanBurst(totalBurstLen, count);
      burstCount, maxBurstLen, totalBurstLen := 0, 0, 0;
    }
  }

  // ----- the receiver -----

  datatype Receiver = Receiver(packets: nat, reordered: nat, highest: nat, gap: Gap, hasData: bool) {
    function Record(counter: nat): Receiver {
      Receiver(packets + 1,
               if counter < highest then reordered + 1 else reordered,
               if counter < highest then highest else counter,
               gap.Observe(counter), true)
    }

    /** After a first frame, the next counter expected is the one after the highest. */
    predicate Started() {
      gap.expectedNext == Some(highest + 1)
    }
  }

  datatype Report = Report(highestCounter: nat, cumulativePacketsRecv: nat, cumulativeReorderCount: nat,
                           maxBurstLoss: nat, meanBurstLoss: nat, burstLossCount: nat)

  class ReceiverState {
    var cumulativePacketsRecv: nat
    var cumulativeReorderCount: nat
    var highestCounter: nat
    var gapTracker: GapTracker
    var intervalHasData: bool

    function View(): Receiver
      reads this, gapTracker
    {
      Receiver(cumulativePacketsRecv, cumulativeReorderCount, highestCounter, gapTracker.View(), intervalHasData)
    }

    constructor ()
      ensures fresh(gapTracker) && View() == Receiver(0, 0, 0, NO_GAPS, false)
    {
      cumulativePacketsRecv, cumulativeReorderCount, highestCounter, intervalHasData := 0, 0, 0, false;
      gapTracker := new GapTracker();
    }

    /** The lifetime packet count survives a key change; everything tied to counters starts afresh. */
    method ResetForRekey()
      modifies this
      ensures fresh(gapTracker) && View() == Receiver(old(cumulativePacketsRecv), 0, 0, NO_GAPS, false)
    {
      highestCounter, cumulativeReorderCount, intervalHasData := 0, 0, false;
      gapTracker := new GapTracker();
    }

    method RecordRecv(counter: nat)
      modifies this, gapTracker
      ensures gapTracker == old(gapTracker) && View() == old(View()).Record(counter)
    {
      intervalHasData := true;
      cumulativePacketsRecv := cumulativePacketsRecv + 1;
      if counter < highestCounter {
        cumulativeReorderCount := cumulativeReorderCount + 1;
      } else {
        highestCounter := counter;
      }
      var lost := gapTracker.Observe(counter);
    }

    method BuildReport() returns (r: Option<Report>)
      modifies this, gapTracker
      ensures gapTracker == old(gapTracker)
      ensures r.None? <==> !old(intervalHasData)
      ensures r.None? ==> View() == old(View())
      ensures r.Some? ==> View() == old(View()).(gap := old(View()).gap.NewInterval(), hasData := false)
      ensures r.Some? ==>
                var done := old(View()).gap.FinishBurst();
                r.value == Report(highestCounter, cumulativePacketsRecv, cumulativeReorderCount % 0x1_0000_0000,
                                  done.maxBurstLen, MeanBurst(done.totalBurstLen, done.burstCount), done.burstCount)
    {
      if !intervalHasData {
        return None;
      }
      var burstCount, maxBurst, meanBurst := gapTracker.TakeIntervalStats();
      r := Some(Report(highestCounter, cumulativePacketsRecv, cumulativeReorderCount % 0x1_0000_0000,
                       maxBurst, meanBurst, burstCount));
      intervalHasData := false;
    }
  }

  // ----- runs of frames -----

  function RecordAll(r: Receiver, counters: seq<nat>): Receiver {
    if counters == [] then r else RecordAll(r, counters[..|counters| - 1]).Record(counters[|counters| - 1])
  }

  /** Sum of the losses the gap tracker returned over the run. */
  function Losses(r: Receiver, counters: seq<nat>): nat {
    if counters == [] then 0
    else
      var before := counters[..|counters| - 1];
      Losses(r, before) + RecordAll(r, before).gap.LostAt(counters[|counters| - 1])
  }

  /** Frames that repeated the highest counter of their moment. */
  function RepeatsOfHighest(r: Receiver, counters: seq<nat>): nat {
    if counters == [] then 0
    else
      var before := counters[..|counters| - 1];
      RepeatsOfHighest(r, before) + if counters[|counters| - 1] == RecordAll(r, before).highest then 1 else 0
  }

  /** The first frame of a key epoch starts the tracker, whatever its counter. */
  lemma FirstFrameStarts(r: Receiver, counter: nat)
    requires r.gap.expectedNext == None && r.highest == 0
    ensures r.Record(counter).Started() && r.Record(counter).highest == counter
  {}

  /** Conservation: the counters passed over are the frames received that were neither late nor repeats,
      and the losses. */
  lemma {:induction false} Conservation(r: Receiver, counters: seq<nat>)
    requires r.Started()
    ensures var r' := RecordAll(r, counters);
            && r'.Started() && r'.highest >= r.highest && r'.reordered >= r.reordered
            && r'.packets == r.packets + |counters|
            && (r'.highest - r.highest) + (r'.reordered - r.reordered) + RepeatsOfHighest(r, counters)
               == |counters| + Losses(r, counters)
  {
    if counters != [] {
      Conservation(r, counters[..|counters| - 1]);
    }
  }

  /** New counters only: none twice, none the highest already seen. */
  predicate AllNew(highest: nat, counters: seq<nat>) {
    && (forall i | 0 <= i < |counters| :: counters[i] != highest)
    && forall i, j | 0 <= i < j < |counters| :: counters[i] != counters[j]
  }

  lemma {:induction false} HighestWasSeen(r: Receiver, counters: seq<nat>)
    ensures var h := RecordAll(r, counters).highest; h == r.highest || h in counters
    ensures forall c | c in counters :: c <= RecordAll(r, counters).highest
    ensures r.highest <= RecordAll(r, counters).highest
  {
    if counters != [] {
      var before := counters[..|counters| - 1];
      HighestWasSeen(r, before);
      assert counters == before + [counters[|counters| - 1]];
    }
  }

  lemma {:induction false} NewNeverRepeats(r: Receiver, counters: seq<nat>)
    requires AllNew(r.highest, counters)
    ensures RepeatsOfHighest(r, counters) == 0
  {
    if counters != [] {
      var before := counters[..|counters| - 1];
      NewNeverRepeats(r, before);
      HighestWasSeen(r, before);
    }
  }

  // ----- what really went missing -----

  function Elements(counters: seq<nat>): set<nat> {
    set c | c in counters
  }

  function Between(from: nat, upTo: nat): set<nat> {
    set c: nat | c <= upTo && IsAfter(c, from)
  }

  predicate IsAfter(c: nat, from: nat) {
    from < c
  }

  /** Counters after `from` up to `to` that no frame carried. */
  function Missing(from: nat, upTo: nat, counters: seq<nat>): set<nat> {
    set c: nat | c <= upTo && IsAfter(c, from) && c !in counters
  }

  /** Frames from before the last report. */
  function Late(from: nat, counters: seq<nat>): set<nat> {
    set c | c in counters && c < from
  }

  /** What the gap tracker counts is what is missing plus what arrived late within the run. */
  lemma LossesAreMissing(r: Receiver, counters: seq<nat>)
    requires r.Started() && AllNew(r.highest, counters)
    ensures var r' := RecordAll(r, counters);
            && Losses(r, counters) + |Late(r.highest, counters)|
               == |Missing(r.highest, r'.highest, counters)| + (r'.reordered - r.reordered)
            && r'.highest - r.highest + |Late(r.highest, counters)|
               == |Missing(r.highest, r'.highest, counters)| + |counters|
  {
    Conservation(r, counters);
    NewNeverRepeats(r, counters);
    HighestWasSeen(r, counters);
    SpanIsPartitioned(r.highest, RecordAll(r, counters).highest, counters);
  }

  lemma SpanIsPartitioned(from: nat, upTo: nat, counters: seq<nat>)
    requires from <= upTo && AllNew(from, counters) && forall c | c in counters :: c <= upTo
    ensures upTo - from + |Late(from, counters)| == |Missing(from, upTo, counters)| + |counters|
  {
    SetOfDistinct(counters, from);
    SpanSize(from, upTo);
    hide AllNew;
    var all, late, span := Elements(counters), Late(from, counters), Between(from, upTo);
    assert all == late + (all - late);
    assert span == Missing(from, upTo, counters) + (all - late);
  }

  lemma {:induction false} SetOfDistinct(counters: seq<nat>, h: nat)
    requires AllNew(h, counters)
    ensures |Elements(counters)| == |counters|
  {
    if counters != [] {
      var before, last := counters[..|counters| - 1], counters[|counters| - 1];
      SetOfDistinct(before, h);
      assert Elements(counters) == Elements(before) + {last};
    }
  }

  lemma {:induction false} SpanSize(from: nat, upTo: nat)
    requires from <= upTo
    ensures |Between(from, upTo)| == upTo - from
    decreases upTo
  {
    if from < upTo {
      SpanSize(from, upTo - 1);
      assert Between(from, upTo) == Between(from, upTo - 1) + {upTo};
    } else {
      assert Between(from, upTo) == {};
    }
  }

  // ----- the sender's view of two reports -----

  function Clamp01(x: real): real {
    if x < 0.0 then 0.0 else if x > 1.0 then 1.0 else x
  }

  function ComputeEtx(dForward: real, dReverse: real): (etx: real)
    ensures 1.0 <= etx <= 100.0
  {
    var product := dForward * dReverse;
    if product <= 0.0 then 100.0
    else if 1.0 / product < 1.0 then 1.0 else if 1.0 / product > 100.0 then 100.0 else 1.0 / product
  }

  /** One direction: the last snapshot and the ratio computed from it. */
  datatype Delivery = Delivery(ratio: real, prevPackets: nat, prevHighest: nat, hasPrev: bool) {
    function Ratio(packets: nat, highest: nat): real {
      var span := Monus(highest, prevHighest);
      if hasPrev && span > 0 then Clamp01(Monus(packets, prevPackets) as real / span as real) else ratio
    }

    function Update(packets: nat, highest: nat): Delivery {
      Delivery(Ratio(packets, highest), packets, highest, true)
    }
  }

  class MmpMetrics {
    var deliveryRatioForward: real
    var deliveryRatioReverse: real
    var etx: real
    var prevRrCumPackets: nat
    var prevRrHighestCounter: nat
    var hasPrevRr: bool
    var prevReversePackets: nat
    var prevReverseHighest: nat
    var hasPrevReverse: bool

    function Forward(): Delivery
      reads this
    {
      Delivery(deliveryRatioForward, prevRrCumPackets, prevRrHighestCounter, hasPrevRr)
    }

    function Reverse(): Delivery
      reads this
    {
      Delivery(deliveryRatioReverse, prevReversePackets, prevReverseHighest, hasPrevReverse)
    }

    constructor ()
      ensures Forward() == Reverse() == Delivery(1.0, 0, 0, false) && etx == 1.0
    {
      deliveryRatioForward, deliveryRatioReverse, etx := 1.0, 1.0, 1.0;
      prevRrCumPackets, prevRrHighestCounter, hasPrevRr := 0, 0, false;
      prevReversePackets, prevReverseHighest, hasPrevReverse := 0, 0, false;
    }

    /** The reverse ratio and the last ETX outlive a key change. */
    method ResetForRekey()
      modifies this
      ensures Forward() == Delivery(1.0, 0, 0, false) && Reverse() == Delivery(old(deliveryRatioReverse), 0, 0, false)
      ensures etx == old(etx)
    {
      prevRrCumPackets, prevRrHighestCounter, hasPrevRr := 0, 0, false;
      deliveryRatioForward := 1.0;
      prevReversePackets, prevReverseHighest, hasPrevReverse := 0, 0, false;
    }

    method ProcessReceiverReport(rr: Report)
      modifies this
      ensures Forward() == old(Forward()).Update(rr.cumulativePacketsRecv, rr.highestCounter)
      ensures Reverse() == old(Reverse())
      ensures etx == if old(hasPrevRr) && rr.highestCounter > old(prevRrHighestCounter)
                     then ComputeEtx(deliveryRatioForward, deliveryRatioReverse) else old(etx)
    {
      if hasPrevRr {
        var counterSpan := Monus(rr.highestCounter, prevRrHighestCounter);
        var packetsDelta := Monus(rr.cumulativePacketsRecv, prevRrCumPackets);
        if counterSpan > 0 {
          deliveryRatioForward := Clamp01(packetsDelta as real / counterSpan as real);
          etx := ComputeEtx(deliveryRatioForward, deliveryRatioReverse);
        }
      }
      prevRrCumPackets, prevRrHighestCounter, hasPrevRr := rr.cumulativePacketsRecv, rr.highestCounter, true;
    }

    method UpdateReverseDelivery(ourRecvPackets: nat, peerHighest: nat)
      modifies this
      ensures Reverse() == old(Reverse()).Update(ourRecvPackets, peerHighest)
      ensures Forward() == old(Forward())
      ensures etx == if old(hasPrevReverse) && peerHighest > old(prevReverseHighest)
                     then ComputeEtx(deliveryRatioForward, deliveryRatioReverse) else old(etx)
    {
      if hasPrevReverse {
        var counterSpan := Monus(peerHighest, prevReverseHighest);
        var packetsDelta := Monus(ourRecvPackets, prevReversePackets);
        if counterSpan > 0 {
          deliveryRatioReverse := Clamp01(packetsDelta as real / counterSpan as real);
          etx := ComputeEtx(deliveryRatioForward, deliveryRatioReverse);
        }
      }
      prevReversePackets, prevReverseHighest, hasPrevReverse := ourRecvPackets, peerHighest, true;
    }
  }

  /** Between two reports on new counters, the computed loss rate is the missing frames less those that
      arrived late from before the first report, over the counters passed. It is the true rate exactly when
      nothing came from before or nothing is missing. */
  lemma LossRate(d: Delivery, r: Receiver, counters: seq<nat>)
    requires r.Started() && AllNew(r.highest, counters)
    requires d.hasPrev && d.prevPackets == r.packets && d.prevHighest == r.highest
    ensures var r' := RecordAll(r, counters);
            var span, missing, late := r'.highest - r.highest, |Missing(r.highest, r'.highest, counters)|,
                                       |Late(r.highest, counters)|;
            span > 0 ==>
              var rate := 1.0 - d.Update(r'.packets, r'.highest).ratio;
              && rate == Monus(missing, late) as real / span as real
              && (rate == missing as real / span as real <==> late == 0 || missing == 0)
  {
    var r' := RecordAll(r, counters);
    Conservation(r, counters);
    LossesAreMissing(r, counters);
    var span, missing, late := r'.highest - r.highest, |Missing(r.highest, r'.highest, counters)|,
                               |Late(r.highest, counters)|;
    if span > 0 {
      RatioComplement(|counters|, span, missing, late);
      if late > 0 && missing > 0 {
        FractionsDiffer(Monus(missing, late), missing, span);
      }
    }
  }

  lemma SignOf(a: real, c: real)
    requires c > 0.0
    ensures a * c > 0.0 <==> a > 0.0
  {}

  lemma Cancel(a: real, b: real, c: real)
    requires c > 0.0 && a * c == b * c
    ensures a == b
  {
    assert (a - b) * c == 0.0;
  }

  lemma OneMinus(a: real, s: real)
    requires s > 0.0
    ensures 1.0 - a / s == (s - a) / s
  {
    var x, y := a / s, (s - a) / s;
    assert x * s == a && y * s == s - a;
    assert (1.0 - x) * s == s - x * s;
    Cancel(y, 1.0 - x, s);
  }

  lemma RatioComplement(n: nat, span: nat, missing: nat, late: nat)
    requires span > 0 && span + late == missing + n
    ensures 1.0 - Clamp01(n as real / span as real) == Monus(missing, late) as real / span as real
  {
    var x := n as real / span as real;
    assert x * span as real == n as real;
    assert (x - 1.0) * span as real == n as real - span as real;
    SignOf(x - 1.0, span as real);
    OneMinus(n as real, span as real);
    if n <= span {
      assert (span - n) as real == span as real - n as real;
    }
  }

  lemma FractionsDiffer(a: nat, b: nat, span: nat)
    requires span > 0 && a != b
    ensures a as real / span as real != b as real / span as real
  {
    var x, y := a as real / span as real, b as real / span as real;
    assert x * span as real == a as real && y * span as real == b as real;
  }

  // ----- bursts -----

  /** Burst lengths recorded so far in the interval, the unfinished burst included. */
  function Recorded(g: Gap): nat {
    g.totalBurstLen + g.currentBurstLen
  }

  ghost predicate BurstsOk(g: Gap) {
    && g.currentBurstLen <= U16_MAX && (!g.inBurst ==> g.currentBurstLen == 0) && (g.inBurst ==> g.burstCount > 0)
    && g.maxBurstLen <= g.totalBurstLen
  }

  /** Over an interval that starts with no burst: bursts were counted exactly if something was lost, their
      recorded lengths never exceed the losses, and add up to them while these fit sixteen bits. */
  lemma {:induction false} BurstsAreLosses(r: Receiver, counters: seq<nat>)
    requires r.Started() && r.gap == r.gap.NewInterval() && BurstsOk(r.gap)
    ensures var g, lost := RecordAll(r, counters).gap, Losses(r, counters);
            && BurstsOk(g) && g.burstCount <= lost && (g.burstCount > 0 <==> lost > 0)
            && Recorded(g) <= lost && (lost <= U16_MAX ==> Recorded(g) == lost)
            && Recorded(g.FinishBurst()) == Recorded(g)
  {
    hide Gap.Observe, Gap.LostAt;
    if counters != [] {
      var before := counters[..|counters| - 1];
      BurstsAreLosses(r, before);
      Conservation(r, before);
      BurstStep(RecordAll(r, before).gap, counters[|counters| - 1], Losses(r, before));
    }
  }

  lemma BurstStep(g: Gap, counter: nat, lost: nat)
    requires g.expectedNext.Some? && BurstsOk(g) && g.burstCount <= lost && (g.burstCount > 0 <==> lost > 0)
    requires Recorded(g) <= lost && (lost <= U16_MAX ==> Recorded(g) == lost)
    ensures var g', lost' := g.Observe(counter), lost + g.LostAt(counter);
            && BurstsOk(g') && g'.burstCount <= lost' && (g'.burstCount > 0 <==> lost' > 0)
            && Recorded(g') <= lost' && (lost' <= U16_MAX ==> Recorded(g') == lost')
  {}

  // ----- which bursts a report tells of -----

  /** The counters skipped by frame `i` of a run: those between the highest before it and its own. */
  function Skipped(highest: nat, counters: seq<nat>, i: nat): nat
    requires i < |counters|
  {
    Monus(counters[i], HighestOf(highest, counters[..i]) + 1)
  }

  function HighestOf(highest: nat, counters: seq<nat>): nat {
    if counters == [] then highest
    else Max(HighestOf(highest, counters[..|counters| - 1]), counters[|counters| - 1])
  }

  /** The recorded lengths of the bursts, oldest first: frames in a row that each skip something make one burst,
      whose length is what they skip, in sixteen bits per frame and at most the maximum. */
  function Bursts(highest: nat, counters: seq<nat>): seq<nat> {
    if counters == [] then []
    else
      var n := |counters| - 1;
      var before, skipped := Bursts(highest, counters[..n]), Skipped(highest, counters, n);
      if skipped == 0 then before
      else if n > 0 && Skipped(highest, counters, n - 1) > 0 && before != [] then
        before[..|before| - 1] + [Min(before[|before| - 1] + skipped % 65536, U16_MAX)]
      else before + [skipped % 65536]
  }

  function Sum(s: seq<nat>): nat {
    if s == [] then 0 else Sum(s[..|s| - 1]) + s[|s| - 1]
  }

  ghost predicate IsLargest(m: nat, s: seq<nat>) {
    if s == [] then m == 0 else m in s && forall x | x in s :: x <= m
  }

  lemma {:induction false} SkippedIsLost(r: Receiver, counters: seq<nat>)
    requires r.Started()
    ensures RecordAll(r, counters).Started() && RecordAll(r, counters).highest == HighestOf(r.highest, counters)
  {
    if counters != [] {
      SkippedIsLost(r, counters[..|counters| - 1]);
    }
  }

  /** The tracker within an interval: finished bursts, and the one still going on if the last frame skipped
      something. */
  ghost predicate Tracks(g: Gap, highest: nat, counters: seq<nat>) {
    var bursts, n := Bursts(highest, counters), |counters| - 1;
    var finished := if g.inBurst && bursts != [] then bursts[..|bursts| - 1] else bursts;
    && (g.inBurst <==> counters != [] && Skipped(highest, counters, n) > 0)
    && (g.inBurst ==> bursts != [] && g.currentBurstLen == bursts[|bursts| - 1])
    && (!g.inBurst ==> g.currentBurstLen == 0)
    && g.burstCount == |bursts| && g.totalBurstLen == Sum(finished) && IsLargest(g.maxBurstLen, finished)
  }

  lemma {:induction false} TracksBursts(r: Receiver, counters: seq<nat>)
    requires r.Started() && r.gap == r.gap.NewInterval() && BurstsOk(r.gap)
    ensures Tracks(RecordAll(r, counters).gap, r.highest, counters)
  {
    if counters != [] {
      var n := |counters| - 1;
      var before := counters[..n];
      TracksBursts(r, before);
      SkippedIsLost(r, before);
      if n > 0 {
        assert before[..n - 1] == counters[..n - 1];
      }
      TrackStep(RecordAll(r, before), r.highest, counters);
    }
  }

  lemma TrackStep(r: Receiver, highest: nat, counters: seq<nat>)
    requires counters != []
    requires var n := |counters| - 1;
             && r.Started() && r.highest == HighestOf(highest, counters[..n]) && Tracks(r.gap, highest, counters[..n])
             && (n > 0 ==> Skipped(highest, counters[..n], n - 1) == Skipped(highest, counters, n - 1))
    ensures Tracks(r.gap.Observe(counters[|counters| - 1]), highest, counters)
  {
    var n := |counters| - 1;
    var g, before, bursts := r.gap, Bursts(highest, counters[..n]), Bursts(highest, counters);
    assert r.gap.LostAt(counters[n]) == Skipped(highest, counters, n);
    if Skipped(highest, counters, n) > 0 {
      assert bursts[..|bursts| - 1] == if g.inBurst then before[..|before| - 1] else before;
    } else if g.inBurst {
      assert before == before[..|before| - 1] + [before[|before| - 1]];
    }
  }

  /** What the next report says of bursts: how many there were in the interval, the longest, and their total. */
  lemma ReportedBursts(r: Receiver, counters: seq<nat>)
    requires r.Started() && r.gap == r.gap.NewInterval() && BurstsOk(r.gap)
    ensures var done, bursts := RecordAll(r, counters).gap.FinishBurst(), Bursts(r.highest, counters);
            done.burstCount == |bursts| && IsLargest(done.maxBurstLen, bursts) && done.totalBurstLen == Sum(bursts)
  {
    hide RecordAll, Bursts, Skipped;
    TracksBursts(r, counters);
    FinishesBursts(RecordAll(r, counters).gap, Bursts(r.highest, counters));
  }

  lemma FinishesBursts(g: Gap, bursts: seq<nat>)
    requires g.inBurst ==> bursts != [] && g.currentBurstLen == bursts[|bursts| - 1]
    requires var finished := if g.inBurst && bursts != [] then bursts[..|bursts| - 1] else bursts;
             g.totalBurstLen == Sum(finished) && IsLargest(g.maxBurstLen, finished)
    ensures IsLargest(g.FinishBurst().maxBurstLen, bursts) && g.FinishBurst().totalBurstLen == Sum(bursts)
  {
    if g.inBurst {
      assert bursts == bursts[..|bursts| - 1] + [bursts[|bursts| - 1]];
    }
  }

  /** The mean is that of the total over the count, rounded down to a 256th, unless it does not fit. */
  lemma MeanIs(total: nat, count: nat)
    ensures count == 0 ==> MeanBurst(total, count) == 0
    ensures count > 0 && total < 256 * count ==>
              count * MeanBurst(total, count) <= 256 * total < count * (MeanBurst(total, count) + 1)
    ensures count > 0 && total >= 256 * count ==> MeanBurst(total, count) == U16_MAX
  {
    if count > 0 {
      DivIff(count, 256 * total, MeanBurst(total, count));
      DivIff(count, 256 * total, MeanBurst(total, count) + 1);
      DivIff(count, 256 * total, 65536);
    }
  }

  /** A report is due exactly if a frame arrived since the last; taking it starts a new interval, in which the
      counting goes on where it was. */
  lemma ReportStartsInterval(r: Receiver, counters: seq<nat>)
    ensures RecordAll(r, counters).hasData <==> r.hasData || counters != []
    ensures r.gap.NewInterval() == r.gap.NewInterval().NewInterval()
    ensures r.(gap := r.gap.NewInterval()).Started() <==> r.Started()
    ensures forall c: nat :: r.gap.NewInterval().LostAt(c) == r.gap.LostAt(c)
  {}

  // ----- the ratio and the expected number of transmissions -----

  /** The first report, and one that brings no higher counter, leave the ratio; any other puts it to the frames
      received over the counters passed, at most one. */
  lemma RatioIs(d: Delivery, packets: nat, highest: nat)
    requires 0.0 <= d.ratio <= 1.0
    ensures var ratio := d.Update(packets, highest).ratio;
            && 0.0 <= ratio <= 1.0
            && (!d.hasPrev || highest <= d.prevHighest ==> ratio == d.ratio)
            && (d.hasPrev && highest > d.prevHighest && packets >= d.prevPackets ==>
                  if packets - d.prevPackets <= highest - d.prevHighest
                  then ratio * (highest - d.prevHighest) as real == (packets - d.prevPackets) as real
                  else ratio == 1.0)
    ensures d.Update(packets, highest).hasPrev && d.Update(packets, highest).prevPackets == packets
            && d.Update(packets, highest).prevHighest == highest
  {
    if d.hasPrev && highest > d.prevHighest {
      var n, span := Monus(packets, d.prevPackets), highest - d.prevHighest;
      var x := n as real / span as real;
      assert x * span as real == n as real;
      assert (x - 1.0) * span as real == n as real - span as real;
      SignOf(x - 1.0, span as real);
      SignOf(-x, span as real);
      assert (-x) * span as real == -(n as real);
    }
  }

  /** ETX is the inverse of the product of the two ratios, kept between 1 and 100. */
  lemma EtxIs(f: real, r: real)
    ensures 1.0 <= 100.0 * (f * r) && f * r <= 1.0 ==> ComputeEtx(f, r) * (f * r) == 1.0
    ensures 100.0 * (f * r) < 1.0 ==> ComputeEtx(f, r) == 100.0
    ensures f * r > 1.0 ==> ComputeEtx(f, r) == 1.0
  {
    var p := f * r;
    if p > 0.0 {
      var x := 1.0 / p;
      assert x * p == 1.0;
      assert (x - 1.0) * p == 1.0 - p && (x - 100.0) * p == 1.0 - 100.0 * p;
      SignOf(x - 1.0, p);
      SignOf(x - 100.0, p);
      SignOf(1.0 - x, p);
    }
  }
}
