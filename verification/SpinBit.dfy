/**
  The spin bit: the initiator flips its bit whenever the bit comes back, the responder echoes the bit of
  the frame with the highest counter. The two ends run over paths that may lose and reorder frames, the
  forward one also repeating them, and through key changes, at which the initiator counts from zero again
  while the responder keeps the highest counter it has seen.
*/
module SpinBit {
  import opened Basics

  /** The fields of one end. */
  datatype Spin = Spin(isInitiator: bool, currentValue: bool, highestCounterForSpin: nat, lastEdgeTime: Option<nat>) {

    function TxBit(): bool {
      currentValue
    }

    /** What a received frame makes of the state, and the time since the previous edge on a new edge. */
    function Observe(bit: bool, counter: nat, now: nat): (Spin, Option<nat>) {
      if isInitiator then
        if bit == currentValue then
          (this.(lastEdgeTime := Some(now), currentValue := !currentValue),
           if lastEdgeTime.Some? then Some(Since(lastEdgeTime.value, now)) else None)
        else (this, None)
      else if counter > highestCounterForSpin then
        (this.(highestCounterForSpin := counter, currentValue := bit), None)
      else (this, None)
    }
  }

  function NewSpin(isInitiator: bool): Spin {
    Spin(isInitiator, false, 0, None)
  }

  class SpinBitState {
    const isInitiator: bool
    var currentValue: bool
    var highestCounterForSpin: nat
    var lastEdgeTime: Option<nat>

    function View(): Spin
      reads this
    {
      Spin(isInitiator, currentValue, highestCounterForSpin, lastEdgeTime)
    }

    constructor (isInitiator: bool)
      ensures View() == NewSpin(isInitiator)
    {
      this.isInitiator := isInitiator;
      currentValue, highestCounterForSpin, lastEdgeTime := false, 0, None;
    }

    method RxObserve(receivedBit: bool, counter: nat, now: nat) returns (sample: Option<nat>)
      modifies this
      ensures (View(), sample) == old(View()).Observe(receivedBit, counter, now)
    {
      sample := None;
      if isInitiator {
        if receivedBit == currentValue {
          if lastEdgeTime.Some? {
            sample := Some(Since(lastEdgeTime.value, now));
          }
          lastEdgeTime := Some(now);
          currentValue := !currentValue;
        }
      } else if counter > highestCounterForSpin {
        highestCounterForSpin := counter;
        currentValue := receivedBit;
      }
    }
  }

  // ----- both ends and the paths between them -----

  /** A frame of the initiator. `epoch` and `sentAt` are history: the flips before it and when it left. */
  datatype Frame = Frame(counter: nat, bit: bool, epoch: nat, sentAt: nat)

  /** A frame of the responder. `origin` is when the initiator sent the frame whose bit this one echoes. */
  datatype Echo = Echo(bit: bool, epoch: nat, origin: Option<nat>)

  /** `flips`, `respEpoch` and `respOrigin` are history too. */
  datatype State = State(init: Spin, resp: Spin, nextCounter: nat, clock: nat,
                         forward: set<Frame>, back: seq<Echo>,
                         flips: nat, respEpoch: nat, respOrigin: Option<nat>)

  datatype Event =
    | Tick(ticks: nat)
    | SendForward
    | DeliverForward(f: Frame, again: bool)
    | LoseForward(f: Frame)
    | Rekey
    | SendBack
    | DeliverBack(k: nat)
    | LoseBack(k: nat)

  const START := State(NewSpin(true), NewSpin(false), 0, 0, {}, [], 0, 0, None)

  predicate Enabled(s: State, e: Event) {
    match e
    case DeliverForward(f, _) => f in s.forward
    case LoseForward(f) => f in s.forward
    case DeliverBack(k) => k < |s.back|
    case LoseBack(k) => k < |s.back|
    case _ => true
  }

  function Without(q: seq<Echo>, k: nat): seq<Echo>
    requires k < |q|
  {
    q[..k] + q[k + 1..]
  }

  /** The step and the sample it yields, if any. */
  function Next(s: State, e: Event): (State, Option<nat>)
    requires Enabled(s, e)
  {
    match e
    case Tick(ticks) => (s.(clock := s.clock + ticks), None)
    case SendForward =>
      var f := Frame(s.nextCounter, s.init.TxBit(), s.flips, s.clock);
      (s.(forward := s.forward + {f}, nextCounter := s.nextCounter + 1), None)
    case DeliverForward(f, again) =>
      var (resp, sample) := s.resp.Observe(f.bit, f.counter, s.clock);
      var taken := resp != s.resp;
      (s.(resp := resp, forward := if again then s.forward else s.forward - {f},
          respEpoch := if taken then f.epoch else s.respEpoch,
          respOrigin := if taken then Some(f.sentAt) else s.respOrigin), sample)
    case LoseForward(f) => (s.(forward := s.forward - {f}), None)
    case Rekey => (s.(nextCounter := 0), None)
    case SendBack => (s.(back := s.back + [Echo(s.resp.TxBit(), s.respEpoch, s.respOrigin)]), None)
    case DeliverBack(k) =>
      var (init, sample) := s.init.Observe(s.back[k].bit, 0, s.clock);
      (s.(init := init, back := Without(s.back, k),
          flips := if init != s.init then s.flips + 1 else s.flips), sample)
    case LoseBack(k) => (s.(back := Without(s.back, k)), None)
  }

  // ----- the invariant -----

  /** Something that carries the newest bit value left the initiator after the latest flip. */
  predicate FreshEnough(s: State, epoch: nat, origin: Option<nat>) {
    epoch == s.flips > 0 ==>
      origin.Some? && s.init.lastEdgeTime.Some? && s.init.lastEdgeTime.value <= origin.value <= s.clock
  }

  ghost predicate EndsOk(s: State) {
    && s.init.isInitiator && !s.resp.isInitiator
    && s.init.currentValue == Odd(s.flips) && s.resp.currentValue == Odd(s.respEpoch)
    && (s.flips == 0 <==> s.init.lastEdgeTime.None?)
    && (s.init.lastEdgeTime.Some? ==> s.init.lastEdgeTime.value <= s.clock)
    && s.respEpoch <= s.flips <= s.respEpoch + 1
    && FreshEnough(s, s.respEpoch, s.respOrigin)
  }

  ghost predicate ForwardOk(s: State) {
    && (forall f | f in s.forward ::
          f.bit == Odd(f.epoch) && f.epoch <= s.flips && FreshEnough(s, f.epoch, Some(f.sentAt))
          && (f.counter > s.resp.highestCounterForSpin ==> s.respEpoch <= f.epoch))
    && forall f, g | f in s.forward && g in s.forward && s.resp.highestCounterForSpin < f.counter < g.counter ::
         f.epoch <= g.epoch
  }

  ghost predicate BackOk(s: State) {
    && (forall k | 0 <= k < |s.back| ::
          s.back[k].bit == Odd(s.back[k].epoch) && s.back[k].epoch <= s.respEpoch
          && s.flips <= s.back[k].epoch + 1 && FreshEnough(s, s.back[k].epoch, s.back[k].origin))
    && forall j, k | 0 <= j < k < |s.back| :: s.back[j].epoch <= s.back[k].epoch
  }

  /** Read from the oldest frame on the return path through the responder and the forward frames it has yet
      to see to the initiator, the bit changes at most once. */
  ghost predicate Inv(s: State) {
    EndsOk(s) && ForwardOk(s) && BackOk(s)
  }

  /** The frame about to leave would be newer than `f` but has a counter below it that still counts. */
  predicate OvertakenBySend(s: State, f: Frame) {
    s.resp.highestCounterForSpin < s.nextCounter < f.counter && f.bit != s.init.currentValue
  }

  /** The echo at `k` carries the initiator's bit and overtakes one that does not. */
  predicate Overtakes(s: State, j: nat, k: nat)
    requires j < k < |s.back|
  {
    s.back[k].bit == s.init.currentValue && s.back[j].bit != s.init.currentValue
  }

  /** No step but a send after a key change and a delivery out of order can do harm. */
  ghost predicate Harmless(s: State, e: Event)
    requires Enabled(s, e)
  {
    match e
    case SendForward => forall f | f in s.forward :: !OvertakenBySend(s, f)
    case DeliverBack(k) => forall j: nat | j < k :: !Overtakes(s, j, k)
    case _ => true
  }

  /** The steps that keep the invariant are exactly the harmless ones. */
  lemma NextInvIff(s: State, e: Event)
    requires Inv(s) && Enabled(s, e)
    ensures Inv(Next(s, e).0) <==> Harmless(s, e)
  {
    match e {
      case DeliverBack(k) =>
        if j: nat :| j < k && Overtakes(s, j, k) {
          OvertakenEchoIsAnEdge(s, j, k);
        } else {
          DeliverBackInv(s, k);
        }
      case DeliverForward(f, again) => DeliverForwardInv(s, e);
      case SendForward => SendForwardInv(s);
      case SendBack => SendBackInv(s);
      case LoseBack(k) => LoseBackInv(s, k);
      case _ => OtherInv(s, e);
    }
  }

  lemma SendForwardInv(s: State)
    requires Inv(s)
    ensures Inv(Next(s, SendForward).0) <==> Harmless(s, SendForward)
  {
    var s' := Next(s, SendForward).0;
    var sent := Frame(s.nextCounter, s.init.TxBit(), s.flips, s.clock);
    Parity(s.flips);
    hide Odd;
    assert sent in s'.forward;
    assert s' == s.(forward := s.forward + {sent}, nextCounter := s.nextCounter + 1);
    assert EndsOk(s') && BackOk(s');
    forall f | f in s.forward && s.resp.highestCounterForSpin < s.nextCounter < f.counter
      ensures f.epoch < s.flips <==> f.bit != s.init.currentValue
    {
      assert s.respEpoch <= f.epoch <= s.flips <= s.respEpoch + 1;
    }
    if f :| f in s.forward && OvertakenBySend(s, f) {
      assert f in s'.forward && f.epoch < sent.epoch;
    }
  }

  lemma OtherInv(s: State, e: Event)
    requires Inv(s) && Enabled(s, e) && (e.Tick? || e.LoseForward? || e.Rekey?)
    ensures Inv(Next(s, e).0)
  {
    hide Odd;
    var s' := Next(s, e).0;
    assert EndsOk(s') && BackOk(s') by { hide ForwardOk; }
    assert ForwardOk(s') by { hide BackOk; }
  }

  lemma LoseBackInv(s: State, k: nat)
    requires Inv(s) && k < |s.back|
    ensures Inv(Next(s, LoseBack(k)).0)
  {
    hide Odd;
    var s' := Next(s, LoseBack(k)).0;
    assert EndsOk(s') && ForwardOk(s') by { hide BackOk; }
    BackAfterRemoval(s, s', k);
  }

  lemma SendBackInv(s: State)
    requires Inv(s)
    ensures Inv(Next(s, SendBack).0)
  {
    hide Odd;
  }

  lemma DeliverForwardInv(s: State, e: Event)
    requires Inv(s) && Enabled(s, e) && e.DeliverForward?
    ensures Inv(Next(s, e).0)
  {
    hide Odd;
  }

  lemma DeliverBackInv(s: State, k: nat)
    requires Inv(s) && k < |s.back|
    requires forall j: nat | j < k :: !Overtakes(s, j, k)
    ensures Inv(Next(s, DeliverBack(k)).0)
  {
    var s' := Next(s, DeliverBack(k)).0;
    if s.back[k].bit == s.init.currentValue {
      AllNewest(s, k);
      EndsAfterFlip(s, s', k);
    }
    BackAfterRemoval(s, s', k);
  }

  /** When an edge comes back, everything under way carries the initiator's bit. */
  lemma AllNewest(s: State, k: nat)
    requires Inv(s) && k < |s.back| && s.back[k].bit == s.init.currentValue
    requires forall j: nat | j < k :: !Overtakes(s, j, k)
    ensures s.respEpoch == s.flips
    ensures forall j | 0 <= j < |s.back| :: s.back[j].epoch == s.flips
  {
    hide ForwardOk, FreshEnough, Odd;
    Parity(s.flips);
    forall j | 0 <= j < |s.back| ensures s.back[j].epoch == s.flips {
      if j < k {
        assert !Overtakes(s, j, k);
      } else if j > k {
        assert s.back[k].epoch <= s.back[j].epoch;
      }
    }
  }

  lemma EndsAfterFlip(s: State, s': State, k: nat)
    requires Inv(s) && k < |s.back| && s.back[k].bit == s.init.currentValue
    requires s' == Next(s, DeliverBack(k)).0 && s.respEpoch == s.flips
    ensures EndsOk(s') && ForwardOk(s') && s'.flips == s.flips + 1
  {}

  lemma BackAfterRemoval(s: State, s': State, k: nat)
    requires Inv(s) && k < |s.back| && (s' == Next(s, DeliverBack(k)).0 || s' == Next(s, LoseBack(k)).0)
    requires s'.flips == s.flips || (s'.flips == s.flips + 1
                                     && forall j | 0 <= j < |s.back| :: s.back[j].epoch == s.flips)
    ensures BackOk(s')
  {
    hide ForwardOk, EndsOk, Odd;
    forall i | 0 <= i < |s'.back| ensures s'.back[i] == s.back[if i < k then i else i + 1] {}
  }

  // ----- whole runs -----

  ghost predicate Run(s: State, events: seq<Event>, end: State)
    decreases |events|
  {
    if events == [] then s == end
    else Enabled(s, events[0]) && Run(Next(s, events[0]).0, events[1..], end)
  }

  ghost predicate HarmlessRun(s: State, events: seq<Event>)
    decreases |events|
  {
    events == [] ||
    (Enabled(s, events[0]) && Harmless(s, events[0]) && HarmlessRun(Next(s, events[0]).0, events[1..]))
  }

  lemma {:induction false} RunInv(s: State, events: seq<Event>, end: State)
    requires Inv(s) && Run(s, events, end) && HarmlessRun(s, events)
    ensures Inv(end)
    decreases |events|
  {
    hide Inv, Next, Enabled, Harmless;
    if events != [] {
      NextInvIff(s, events[0]);
      RunInv(Next(s, events[0]).0, events[1..], end);
    }
  }

  lemma StartInv()
    ensures Inv(START)
  {}

  /** What an observer of the wire sees: from the oldest returning frame back through the responder and the
      frames it has yet to take to the initiator the bit changes at most once, the newer part being the
      initiator's own value. */
  ghost predicate ChangesOnce(s: State) {
    var v, guard := s.init.currentValue, s.resp.highestCounterForSpin;
    && (forall j, k | 0 <= j < k < |s.back| && s.back[j].bit == v :: s.back[k].bit == v)
    && (forall j | 0 <= j < |s.back| && s.back[j].bit == v :: s.resp.currentValue == v)
    && (s.resp.currentValue == v ==> forall f | f in s.forward && f.counter > guard :: f.bit == v)
    && forall f, g | f in s.forward && g in s.forward && guard < f.counter < g.counter && f.bit == v :: g.bit == v
  }

  lemma InvChangesOnce(s: State)
    requires Inv(s)
    ensures ChangesOnce(s)
  {}

  /** The bit changes at most once in every state of a harmless run, whatever was lost, repeated or delivered
      late, and through any number of key changes. */
  lemma OneChange(events: seq<Event>, s: State)
    requires Run(START, events, s) && HarmlessRun(START, events)
    ensures ChangesOnce(s)
  {
    StartInv();
    RunInv(START, events, s);
    InvChangesOnce(s);
  }

  /** Every edge but the first yields a sample, and every sample, from whichever echo comes back next, is at least
      the true round trip of a frame that left after the previous edge and whose echo completes this one. */
  lemma SampleCoversRoundTrip(events: seq<Event>, s: State, k: nat)
    requires Run(START, events, s) && HarmlessRun(START, events)
    requires k < |s.back|
    ensures var sample, origin := Next(s, DeliverBack(k)).1, s.back[k].origin;
            sample.Some? ==> origin.Some? && s.init.lastEdgeTime.Some?
                             && s.init.lastEdgeTime.value <= origin.value <= s.clock
                             && s.clock - origin.value <= sample.value == s.clock - s.init.lastEdgeTime.value
    ensures Next(s, DeliverBack(k)).1.Some? <==> s.back[k].bit == s.init.currentValue && s.flips > 0
  {
    StartInv();
    RunInv(START, events, s);
  }

  // ----- steps that do harm -----

  /** The overtaken echo passes for an edge, with a sample that covers no round trip at all. */
  lemma OvertakenEchoIsAnEdge(s: State, j: nat, k: nat)
    requires Inv(s) && j < k < |s.back| && Overtakes(s, j, k)
    ensures var s' := Next(s, DeliverBack(k)).0;
            Enabled(s', DeliverBack(j)) && Next(s', DeliverBack(j)).1 == Some(0)
            && s'.back[j].epoch + 2 == s'.flips && !ChangesOnce(s')
  {}

  /** The overtaken frame takes the responder back to the bit it had left. */
  lemma OvertakenFrameReverts(s: State, f: Frame) returns (events: seq<Event>, end: State)
    requires Inv(s) && f in s.forward && OvertakenBySend(s, f)
    ensures |events| == 3 && Run(Next(s, SendForward).0, events, end) && !ChangesOnce(end)
  {
    var sent := Frame(s.nextCounter, s.init.TxBit(), s.flips, s.clock);
    var s1 := Next(s, SendForward).0;
    events := [DeliverForward(sent, false), SendBack, DeliverForward(f, false)];
    var s2 := Next(s1, events[0]).0;
    var s3 := Next(s2, SendBack).0;
    assert f in s3.forward;
    end := Next(s3, events[2]).0;
    RunThree(s1, events, s2, s3, end);
    assert end.back[|s.back|].bit == end.init.currentValue;
    assert end.resp.currentValue != end.init.currentValue;
  }

  lemma RunThree(s0: State, es: seq<Event>, s1: State, s2: State, s3: State)
    requires |es| == 3
    requires Enabled(s0, es[0]) && s1 == Next(s0, es[0]).0
    requires Enabled(s1, es[1]) && s2 == Next(s1, es[1]).0
    requires Enabled(s2, es[2]) && s3 == Next(s2, es[2]).0
    ensures Run(s0, es, s3)
  {
    hide Enabled, Next;
    assert Run(s3, es[3..], s3);
    assert es[2..][0] == es[2] && es[2..][1..] == es[3..] && Run(s2, es[2..], s3);
    assert es[1..][0] == es[1] && es[1..][1..] == es[2..] && Run(s1, es[1..], s3);
  }

  /** A step that is not harmless shows: at once, or after the responder has taken both frames. */
  lemma HarmShows(s: State, e: Event) returns (events: seq<Event>, end: State)
    requires Inv(s) && Enabled(s, e) && !Harmless(s, e)
    ensures |events| <= 3 && Run(Next(s, e).0, events, end) && !ChangesOnce(end)
  {
    match e {
      case SendForward =>
        var f :| f in s.forward && OvertakenBySend(s, f);
        events, end := OvertakenFrameReverts(s, f);
      case DeliverBack(k) =>
        var j: nat :| j < k && Overtakes(s, j, k);
        OvertakenEchoIsAnEdge(s, j, k);
        events, end := [], Next(s, e).0;
    }
  }

  /** The condition of `OneChange` cannot be weakened: any other run has a prefix that, at most three steps
      later, leads to a state in which the bit changes more than once. */
  lemma {:induction false} AnyHarmShows(s: State, events: seq<Event>, end: State)
      returns (n: nat, more: seq<Event>, bad: State)
    requires Inv(s) && Run(s, events, end) && !HarmlessRun(s, events)
    ensures n <= |events| && |more| <= 3 && Run(s, events[..n] + more, bad) && !ChangesOnce(bad)
    decreases |events|
  {
    hide Inv, Next, Enabled, Harmless, ChangesOnce;
    var s' := Next(s, events[0]).0;
    if Harmless(s, events[0]) {
      NextInvIff(s, events[0]);
      n, more, bad := AnyHarmShows(s', events[1..], end);
      n := n + 1;
      assert (events[..n] + more)[1..] == events[1..][..n - 1] + more;
    } else {
      more, bad := HarmShows(s, events[0]);
      n := 1;
      assert (events[..n] + more)[1..] == more;
    }
  }

  // ----- key changes -----

  /** Nothing is on its way that the responder would still take. */
  predicate Settled(s: State) {
    forall f | f in s.forward :: f.counter <= s.resp.highestCounterForSpin
  }

  /** The return path keeps order, and keys are changed only while nothing is on its way to the responder. */
  predicate Orderly(s: State, e: Event) {
    (e.DeliverBack? ==> e.k == 0) && (e.Rekey? ==> Settled(s))
  }

  ghost predicate OrderlyRun(s: State, events: seq<Event>)
    decreases |events|
  {
    events == [] ||
    (Enabled(s, events[0]) && Orderly(s, events[0]) && OrderlyRun(Next(s, events[0]).0, events[1..]))
  }

  /** The frames the responder would still take were sent under the current key. */
  predicate Clear(s: State) {
    forall f | f in s.forward && f.counter > s.resp.highestCounterForSpin :: f.counter < s.nextCounter
  }

  /** Two conditions the ends can keep, order on the return path and quiet key changes, rule out all harm. */
  lemma {:induction false} OrderlyIsHarmless(s: State, events: seq<Event>)
    requires Clear(s) && OrderlyRun(s, events)
    ensures HarmlessRun(s, events)
    decreases |events|
  {
    if events != [] {
      ClearKept(s, events[0]);
      OrderlyIsHarmless(Next(s, events[0]).0, events[1..]);
    }
  }

  lemma ClearKept(s: State, e: Event)
    requires Clear(s) && Enabled(s, e) && Orderly(s, e)
    ensures Clear(Next(s, e).0) && Harmless(s, e)
  {}

  function Sends(events: seq<Event>): nat {
    if events == [] then 0 else (if events[0].SendForward? then 1 else 0) + Sends(events[1..])
  }

  /** The cost of keeping the highest counter: until the initiator has counted past it again, the responder
      takes no frame at all, so at most one more edge comes back. */
  lemma {:induction false} StallsAfterRekey(s: State, events: seq<Event>, end: State)
    requires Inv(s) && Settled(s) && Run(s, events, end)
    requires forall e | e in events :: e.DeliverBack? ==> e.k == 0
    requires s.nextCounter + Sends(events) <= s.resp.highestCounterForSpin + 1
    ensures end.resp == s.resp && s.flips <= end.flips <= s.respEpoch + 1
    decreases |events|
  {
    if events != [] {
      hide Inv;
      var s' := Next(s, events[0]).0;
      assert Harmless(s, events[0]);
      NextInvIff(s, events[0]);
      StallsAfterRekey(s', events[1..], end);
    }
  }

  // ----- harm is possible -----

  /** A run of one key in which an echo overtakes one of the other bit. */
  lemma OvertakingReachable() returns (events: seq<Event>, s: State)
    ensures Run(START, events, s) && Inv(s) && |s.back| == 2 && Overtakes(s, 0, 1)
  {
    hide Inv, Run, HarmlessRun;
    var old0 := Echo(false, 0, None);
    var f := Frame(1, true, 1, 0);
    events := [SendBack, SendBack, DeliverBack(0), SendForward, SendForward, DeliverForward(f, true), SendBack];
    var s1 := Next(START, events[0]).0;
    var s2 := Next(s1, events[1]).0;
    assert s2.back == [old0, old0];
    var s3 := Next(s2, events[2]).0;
    var s4 := Next(s3, events[3]).0;
    var s5 := Next(s4, events[4]).0;
    assert f in s5.forward;
    var s6 := Next(s5, events[5]).0;
    s := Next(s6, events[6]).0;
    RunSeven(events, s1, s2, s3, s4, s5, s6, s);
    StartInv();
    RunInv(START, events, s);
  }

  /** A run with one key change, made while frames of the old key are under way, after which the next frame
      is overtaken. */
  lemma OvertakenSendReachable() returns (events: seq<Event>, s: State)
    ensures Run(START, events, s) && Inv(s) && !Harmless(s, SendForward)
    ensures forall e | e in events :: e.DeliverBack? ==> e.k == 0
  {
    hide Inv, Run, HarmlessRun;
    var f := Frame(2, false, 0, 0);
    events := [SendForward, SendForward, SendForward, Rekey, SendForward, SendBack, DeliverBack(0)];
    var s1 := Next(START, events[0]).0;
    var s2 := Next(s1, events[1]).0;
    var s3 := Next(s2, events[2]).0;
    assert f in s3.forward;
    var s4 := Next(s3, events[3]).0;
    var s5 := Next(s4, events[4]).0;
    var s6 := Next(s5, events[5]).0;
    s := Next(s6, events[6]).0;
    assert f in s.forward && OvertakenBySend(s, f);
    RunSeven(events, s1, s2, s3, s4, s5, s6, s);
    StartInv();
    RunInv(START, events, s);
  }

  predicate Takes(s: State, e: Event, s': State) {
    Enabled(s, e) && s' == Next(s, e).0
  }

  lemma RunSeven(es: seq<Event>, s1: State, s2: State, s3: State, s4: State, s5: State, s6: State, s7: State)
    requires |es| == 7
    requires Takes(START, es[0], s1) && Harmless(START, es[0]) && Takes(s1, es[1], s2) && Harmless(s1, es[1])
    requires Takes(s2, es[2], s3) && Harmless(s2, es[2]) && Takes(s3, es[3], s4) && Harmless(s3, es[3])
    requires Takes(s4, es[4], s5) && Harmless(s4, es[4]) && Takes(s5, es[5], s6) && Harmless(s5, es[5])
    requires Takes(s6, es[6], s7) && Harmless(s6, es[6])
    ensures Run(START, es, s7) && HarmlessRun(START, es)
  {
    hide Enabled, Next, Harmless;
    assert Run(s7, es[7..], s7) && HarmlessRun(s7, es[7..]);
    RunBack(s6, es[6..], s7, es[7..], s7);
    RunBack(s5, es[5..], s6, es[6..], s7);
    RunBack(s4, es[4..], s5, es[5..], s7);
    RunBack(s3, es[3..], s4, es[4..], s7);
    RunBack(s2, es[2..], s3, es[3..], s7);
    RunBack(s1, es[1..], s2, es[2..], s7);
    assert es[0..] == es;
    RunBack(START, es, s1, es[1..], s7);
  }

  /** A run grows by a step in front. */
  lemma RunBack(s: State, es: seq<Event>, s': State, rest: seq<Event>, end: State)
    requires es != [] && es[1..] == rest && Takes(s, es[0], s') && Harmless(s, es[0])
    requires Run(s', rest, end) && HarmlessRun(s', rest)
    ensures Run(s, es, end) && HarmlessRun(s, es)
  {}
}
