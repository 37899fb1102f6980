/**
  Key rotation of an established session: a completed handshake leaves a pending session, a flip of the
  K-bit promotes it, and the one before is kept for a while to decrypt what is still under way.
*/
module Rekey {
  import opened Basics

  type Session = nat

  type Handshake = nat

  datatype EndToEnd =
    | Initiating(handshake: Handshake)
    | AwaitingMsg3(handshake: Handshake)
    | Established(session: Session)

  /** The fields of an entry that rotation touches. */
  datatype Entry = Entry(state: Option<EndToEnd>, kBit: bool, previous: Option<Session>, drainStarted: nat,
                         rekey: Option<Handshake>, pending: Option<Session>, rekeyInitiator: bool,
                         rekeyCompleted: nat, sessionStart: nat) {
    predicate IsEstablished() {
      state.Some? && state.value.Established?
    }

    function SetPending(s: Session): Entry {
      this.(pending := Some(s), rekey := None)
    }

    function SetRekeyState(h: Handshake, initiator: bool): Entry {
      this.(rekey := Some(h), rekeyInitiator := initiator)
    }

    function TakeRekeyState(): Entry {
      this.(rekey := None)
    }

    /** The current session steps down and the pending one takes its place. */
    function Promote(now: nat): Entry
      requires pending.Some?
    {
      this.(state := Some(Established(pending.value)),
            previous := if IsEstablished() then Some(state.value.session) else previous,
            drainStarted := now, kBit := !kBit, sessionStart := now,
            rekey := None, pending := None, rekeyInitiator := false)
    }

    function Cutover(now: nat): Entry {
      if pending.None? then this else Promote(now).(rekeyCompleted := 0)
    }

    function PeerFlip(now: nat): Entry {
      if pending.None? then this else Promote(now)
    }

    function CompleteDrain(): Entry {
      this.(previous := None, drainStarted := 0)
    }

    function Abandon(): Entry {
      this.(rekey := None, pending := None, rekeyInitiator := false)
    }

    function SetRekeyCompleted(now: nat): Entry {
      this.(rekeyCompleted := now)
    }

    predicate IsDraining() {
      drainStarted > 0
    }
  }

  function NewEntry(state: EndToEnd): Entry {
    Entry(Some(state), false, None, 0, None, None, false, 0, 0)
  }

  class SessionEntry {
    var state: Option<EndToEnd>
    var currentKBit: bool
    var previousNoiseSession: Option<Session>
    var drainStartedMs: nat
    var rekeyState: Option<Handshake>
    var pendingNewSession: Option<Session>
    var rekeyInitiator: bool
    var rekeyCompletedMs: nat
    var sessionStartMs: nat

    function View(): Entry
      reads this
    {
      Entry(state, currentKBit, previousNoiseSession, drainStartedMs, rekeyState, pendingNewSession,
            rekeyInitiator, rekeyCompletedMs, sessionStartMs)
    }

    constructor (state: EndToEnd)
      ensures View() == NewEntry(state)
    {
      this.state, currentKBit, previousNoiseSession, drainStartedMs := Some(state), false, None, 0;
      rekeyState, pendingNewSession, rekeyInitiator, rekeyCompletedMs, sessionStartMs := None, None, false, 0, 0;
    }

    method SetPendingSession(session: Session)
      modifies this
      ensures View() == old(View()).SetPending(session)
    {
      pendingNewSession := Some(session);
      rekeyState := None;
    }

    method SetRekeyState(handshake: Handshake, isInitiator: bool)
      modifies this
      ensures View() == old(View()).SetRekeyState(handshake, isInitiator)
    {
      rekeyState := Some(handshake);
      rekeyInitiator := isInitiator;
    }

    method TakeRekeyState() returns (handshake: Option<Handshake>)
      modifies this
      ensures View() == old(View()).TakeRekeyState() && handshake == old(rekeyState)
    {
      handshake := rekeyState;
      rekeyState := None;
    }

    /** The initiator's side of a cutover. */
    method CutoverToNewSession(nowMs: nat) returns (done: bool)
      modifies this
      ensures View() == old(View()).Cutover(nowMs) && done == old(pendingNewSession).Some?
    {
      if pendingNewSession.None? {
        return false;
      }
      var newSession := pendingNewSession.value;
      pendingNewSession := None;
      if state.Some? && state.value.Established? {
        previousNoiseSession := Some(state.value.session);
      }
      drainStartedMs := nowMs;
      state := Some(Established(newSession));
      currentKBit := !currentKBit;
      sessionStartMs := nowMs;
      rekeyState := None;
      rekeyInitiator := false;
      rekeyCompletedMs := 0;
      done := true;
    }

    /** The responder's side, on a frame with the other K-bit. */
    method HandlePeerKbitFlip(nowMs: nat) returns (done: bool)
      modifies this
      ensures View() == old(View()).PeerFlip(nowMs) && done == old(pendingNewSession).Some?
    {
      if pendingNewSession.None? {
        return false;
      }
      var newSession := pendingNewSession.value;
      pendingNewSession := None;
      if state.Some? && state.value.Established? {
        previousNoiseSession := Some(state.value.session);
      }
      drainStartedMs := nowMs;
      state := Some(Established(newSession));
      currentKBit := !currentKBit;
      sessionStartMs := nowMs;
      rekeyState := None;
      rekeyInitiator := false;
      done := true;
    }

    method CompleteDrain()
      modifies this
      ensures View() == old(View()).CompleteDrain()
    {
      previousNoiseSession := None;
      drainStartedMs := 0;
    }

    method SetRekeyCompletedMs(nowMs: nat)
      modifies this
      ensures View() == old(View()).SetRekeyCompleted(nowMs)
    {
      rekeyCompletedMs := nowMs;
    }

    method AbandonRekey()
      modifies this
      ensures View() == old(View()).Abandon()
    {
      rekeyState := None;
      pendingNewSession := None;
      rekeyInitiator := false;
    }
  }

  // ----- runs of one entry -----

  datatype Event =
    | SetPending(s: Session)
    | SetRekeyState(h: Handshake, initiator: bool)
    | TakeRekeyState
    | Cutover(now: nat)
    | PeerFlip(now: nat)
    | CompleteDrain
    | Abandon
    | SetRekeyCompleted(now: nat)

  function Do(e: Entry, ev: Event): Entry {
    match ev
    case SetPending(s) => e.SetPending(s)
    case SetRekeyState(h, initiator) => e.SetRekeyState(h, initiator)
    case TakeRekeyState => e.TakeRekeyState()
    case Cutover(now) => e.Cutover(now)
    case PeerFlip(now) => e.PeerFlip(now)
    case CompleteDrain => e.CompleteDrain()
    case Abandon => e.Abandon()
    case SetRekeyCompleted(now) => e.SetRekeyCompleted(now)
  }

  function After(e: Entry, events: seq<Event>): Entry {
    if events == [] then e else Do(After(e, events[..|events| - 1]), events[|events| - 1])
  }

  predicate Promotes(e: Entry, ev: Event) {
    (ev.Cutover? || ev.PeerFlip?) && e.pending.Some?
  }

  /** The sessions that were current, oldest first. */
  function Reigns(first: Session, e: Entry, events: seq<Event>): (r: seq<Session>)
    ensures r != []
  {
    if events == [] then [first]
    else
      var before, ev := events[..|events| - 1], events[|events| - 1];
      Reigns(first, e, before) + if Promotes(After(e, before), ev) then [After(e, before).pending.value] else []
  }

  /** Has a drain completed since the last promotion? */
  function Drained(e: Entry, events: seq<Event>): bool {
    if events == [] then false
    else
      var before, ev := events[..|events| - 1], events[|events| - 1];
      if Promotes(After(e, before), ev) then false
      else ev.CompleteDrain? || Drained(e, before)
  }

  /** Over every run from an established session: the entry stays established, the K-bit is the parity of
      the promotions, the current session is the one promoted last, and the one kept is exactly the one
      current just before, until a drain completes. */
  lemma {:induction false} RotationHistory(first: Session, events: seq<Event>)
    ensures var start := NewEntry(Established(first));
            var e, reigns := After(start, events), Reigns(first, start, events);
            && e.state == Some(Established(reigns[|reigns| - 1]))
            && e.kBit == Odd(|reigns| - 1)
            && e.previous == (if |reigns| == 1 || Drained(start, events) then None else Some(reigns[|reigns| - 2]))
  {
    if events != [] {
      RotationHistory(first, events[..|events| - 1]);
    }
  }

  /** A promotion's time is never zero on a clock that counts from 1970; then a drain is in progress exactly
      while a previous session is kept. */
  lemma {:induction false} DrainingIffKept(first: Session, events: seq<Event>)
    requires forall ev | ev in events :: (ev.Cutover? || ev.PeerFlip?) ==> ev.now > 0
    ensures var e := After(NewEntry(Established(first)), events);
            e.previous.Some? <==> e.IsDraining()
  {
    if events != [] {
      var before := events[..|events| - 1];
      assert events[|events| - 1] in events;
      forall ev | ev in before ensures (ev.Cutover? || ev.PeerFlip?) ==> ev.now > 0 { assert ev in events; }
      DrainingIffKept(first, before);
      RotationHistory(first, before);
    }
  }

  // ----- the other fields, from the events alone -----

  /** The session that awaits promotion: the one set last and neither promoted nor abandoned since. */
  function PendingOf(events: seq<Event>): Option<Session> {
    if events == [] then None
    else
      match events[|events| - 1]
      case SetPending(s) => Some(s)
      case Cutover(_) => None
      case PeerFlip(_) => None
      case Abandon => None
      case _ => PendingOf(events[..|events| - 1])
  }

  /** Does the last event of the run promote a session? */
  predicate LastPromotes(events: seq<Event>)
    requires events != []
  {
    var last := events[|events| - 1];
    (last.Cutover? || last.PeerFlip?) && PendingOf(events[..|events| - 1]).Some?
  }

  /** The handshake under way and whether this end began it. */
  function HandshakeOf(events: seq<Event>): Option<Handshake> {
    if events == [] then None
    else
      var last := events[|events| - 1];
      if last.SetRekeyState? then Some(last.h)
      else if last.SetPending? || last.TakeRekeyState? || last.Abandon? || LastPromotes(events) then None
      else HandshakeOf(events[..|events| - 1])
  }

  function BegunHere(events: seq<Event>): bool {
    if events == [] then false
    else
      var last := events[|events| - 1];
      if last.SetRekeyState? then last.initiator
      else if last.Abandon? || LastPromotes(events) then false
      else BegunHere(events[..|events| - 1])
  }

  /** When the last promotion was. */
  function PromotedAt(events: seq<Event>): nat {
    if events == [] then 0
    else if LastPromotes(events) then events[|events| - 1].now
    else PromotedAt(events[..|events| - 1])
  }

  /** When the last handshake completed, until this end cuts over to its session; a flip by the peer does not
      clear it. */
  function CompletedAt(events: seq<Event>): nat {
    if events == [] then 0
    else
      var last := events[|events| - 1];
      if last.SetRekeyCompleted? then last.now
      else if last.Cutover? && LastPromotes(events) then 0
      else CompletedAt(events[..|events| - 1])
  }

  /** Over every run from an established session: what is pending, the handshake and who began it, and the times
      of the session, its drain and its completion. */
  lemma {:induction false} FieldsFromEvents(first: Session, events: seq<Event>)
    ensures var start := NewEntry(Established(first));
            var e := After(start, events);
            && e.pending == PendingOf(events) && e.rekey == HandshakeOf(events)
            && e.rekeyInitiator == BegunHere(events)
            && e.sessionStart == PromotedAt(events) && e.rekeyCompleted == CompletedAt(events)
            && e.drainStarted == (if Drained(start, events) then 0 else PromotedAt(events))
  {
    if events != [] {
      FieldsFromEvents(first, events[..|events| - 1]);
    }
  }

  // ----- both ends -----

  datatype Side = Left | Right

  function Other(x: Side): Side {
    if x == Left then Right else Left
  }

  /** A data frame: its K-bit and the session that encrypted it. */
  datatype Frame = Frame(dest: Side, kBit: bool, session: Session)

  /** Sessions are numbered in the order their handshakes complete, `made` being the last. `third` is the third
      message of that handshake while it is on its way, with the end it goes to; `larger` is the end with
      the larger address. */
  datatype Pair = Pair(left: Entry, right: Entry, frames: set<Frame>, third: Option<(Side, Session)>,
                       made: Session, larger: Side) {
    function End(x: Side): Entry {
      if x == Left then left else right
    }

    function With(x: Side, e: Entry): Pair {
      if x == Left then this.(left := e) else this.(right := e)
    }

    function Current(x: Side): Session
      requires End(x).IsEstablished()
    {
      End(x).state.value.session
    }

    /** May end `y` answer the first message of a handshake? A pending session bars it; a handshake of its own
        in progress gives way only at the end with the larger address. */
    predicate Answers(y: Side) {
      if End(y).rekey.Some? then y == larger else End(y).pending.None?
    }

    /** Is a third message on its way to `y`? */
    predicate Awaited(y: Side) {
      third.Some? && third.value.0 == y
    }
  }

  datatype Step =
    | Attempt(x: Side, initiator: bool)
    | GiveUp(x: Side)
    | Complete(x: Side)
    | ReceiveThird
    | LoseThird
    | CutOver(x: Side, now: nat)
    | Send(x: Side)
    | Deliver(f: Frame, now: nat)
    | DrainDone(x: Side)

  ghost predicate Working(p: Pair) {
    p.left.IsEstablished() && p.right.IsEstablished()
  }

  /** `Attempt` is the part of a handshake at one end when its messages get no further, `Complete(x)` a
      handshake whose first two messages get through, so that initiator `x` has its session. A third message
      that its receiver no longer waits for is a lost one. The cutover is on a timer that knows nothing of
      the third message. */
  ghost predicate Enabled(p: Pair, s: Step) {
    match s
    case Attempt(x, initiator) =>
      !p.Awaited(x) && if initiator then p.End(x).rekey.None? && p.End(x).pending.None? else p.Answers(x)
    case GiveUp(x) => !p.Awaited(x) && p.End(x).rekey.Some?
    case Complete(x) =>
      p.third.None? && p.End(x).pending.None? && (p.End(x).rekey.Some? ==> p.End(x).rekeyInitiator)
      && p.Answers(Other(x))
    case ReceiveThird => p.third.Some?
    case LoseThird => p.third.Some?
    case CutOver(x, now) => p.End(x).pending.Some? && p.End(x).rekey.None? && p.End(x).rekeyInitiator
    case Deliver(f, now) => f in p.frames
    case _ => true
  }

  /** If both ends have begun a handshake, only the one of the end with the smaller address can complete. */
  lemma OneHandshakeWins(p: Pair, x: Side)
    requires p.third.None? && p.left.rekey.Some? && p.right.rekey.Some?
    requires p.left.rekeyInitiator && p.right.rekeyInitiator && p.left.pending.None? && p.right.pending.None?
    ensures Enabled(p, Complete(x)) <==> p.larger != x
  {}

  /** What a frame's K-bit does before decryption. */
  function Arrived(e: Entry, f: Frame, now: nat): Entry {
    if f.kBit != e.kBit && e.pending.Some? then e.PeerFlip(now) else e
  }

  /** The current session is tried first, then the previous one. */
  predicate Decrypts(e: Entry, f: Frame) {
    (e.IsEstablished() && e.state.value.session == f.session) || e.previous == Some(f.session)
  }

  /** Answering a first message: a handshake in progress is abandoned for it. */
  function Answering(e: Entry, h: Handshake): Entry {
    (if e.rekey.Some? then e.Abandon() else e).SetRekeyState(h, false)
  }

  ghost function Next(p: Pair, s: Step): Pair
    requires Working(p) && Enabled(p, s)
  {
    match s
    case Attempt(x, initiator) =>
      p.With(x, if initiator then p.End(x).SetRekeyState(0, true) else Answering(p.End(x), 0))
    case GiveUp(x) => p.With(x, p.End(x).Abandon())
    case Complete(x) =>
      var h, y := p.made + 1, Other(x);
      var q := p.With(x, p.End(x).SetRekeyState(h, true).TakeRekeyState().SetPending(h));
      q.With(y, Answering(p.End(y), h)).(third := Some((y, h)), made := h)
    case ReceiveThird =>
      var (y, h) := p.third.value;
      p.With(y, p.End(y).TakeRekeyState().SetPending(h)).(third := None)
    case LoseThird => p.(third := None)
    case CutOver(x, now) => p.With(x, p.End(x).Cutover(now))
    case Send(x) => p.(frames := p.frames + {FrameFrom(p, x)})
    case Deliver(f, now) => p.With(f.dest, Arrived(p.End(f.dest), f, now))
    case DrainDone(x) => p.With(x, p.End(x).CompleteDrain())
  }

  /** The frame end `x` would send. */
  function FrameFrom(p: Pair, x: Side): Frame
    requires p.End(x).IsEstablished()
  {
    Frame(Other(x), p.End(x).kBit, p.Current(x))
  }

  function Start(larger: Side): Pair {
    Pair(NewEntry(Established(0)), NewEntry(Established(0)), {}, None, 0, larger)
  }

  ghost predicate Run(p: Pair, steps: seq<Step>, end: Pair)
    decreases |steps|
  {
    if steps == [] then p == end
    else Working(p) && Enabled(p, steps[0]) && Run(Next(p, steps[0]), steps[1..], end)
  }

  ghost predicate NoThirdLost(steps: seq<Step>) {
    LoseThird !in steps
  }

  // ----- what every step but a loss keeps -----

  ghost predicate EndOk(e: Entry) {
    && e.IsEstablished() && (e.rekey.Some? ==> e.pending.None?)
    && var g := e.state.value.session;
       && e.kBit == Odd(g)
       && (e.previous.Some? ==> g == e.previous.value + 1)
       && (e.pending.Some? ==> e.pending.value == g + 1)
  }

  /** How an end `x` stands to its peer `y`: never more than one session ahead, and then the peer has that
      session pending or on its way; with equal sessions one pending at `x` is pending at `y` or on its way. */
  ghost predicate LinkedEnds(x: Entry, y: Entry, toY: Option<Session>, made: Session)
    requires EndOk(x) && EndOk(y)
  {
    var gx, gy := x.state.value.session, y.state.value.session;
    && gx <= gy + 1
    && (gx == gy + 1 ==> x.pending.None? && (y.pending.Some? || toY == Some(gx)) && made == gx)
    && (gx == gy ==> made == if x.pending.Some? || y.pending.Some? then gx + 1 else gx)
    && (gx == gy && x.pending.Some? ==> y.pending.Some? || toY == Some(gx + 1))
    && (toY.Some? ==> y.pending.None? && toY.value == gy + 1
                      && (gx == gy + 1 || (gx == gy && x.pending.Some? && x.rekeyInitiator)))
  }

  /** The session that the third message establishes at an end it is on its way to. */
  function ThirdTo(p: Pair, y: Side): Option<Session> {
    if p.Awaited(y) then Some(p.third.value.1) else None
  }

  ghost predicate Linked(p: Pair, x: Side)
    requires EndOk(p.left) && EndOk(p.right)
  {
    LinkedEnds(p.End(x), p.End(Other(x)), ThirdTo(p, Other(x)), p.made)
  }

  ghost predicate FramesOk(p: Pair)
    requires EndOk(p.left) && EndOk(p.right)
  {
    forall f | f in p.frames :: f.kBit == Odd(f.session) && f.session <= p.Current(Other(f.dest))
  }

  ghost predicate Inv(p: Pair) {
    EndOk(p.left) && EndOk(p.right) && Linked(p, Left) && Linked(p, Right) && FramesOk(p)
  }

  lemma StartInv(larger: Side)
    ensures Inv(Start(larger))
  {}

  /** A promotion at one end keeps both ends linked. */
  lemma PromotionKeeps(x: Entry, y: Entry, toX: Option<Session>, toY: Option<Session>, made: Session, now: nat)
    requires EndOk(x) && EndOk(y) && LinkedEnds(x, y, toY, made) && LinkedEnds(y, x, toX, made)
    ensures var x' := x.PeerFlip(now);
            && EndOk(x') && LinkedEnds(x', y, toY, made) && LinkedEnds(y, x', toX, made)
            && x'.state.value.session >= x.state.value.session
            && x.Cutover(now) == (if x.pending.Some? then x'.(rekeyCompleted := 0) else x)
  {
    Parity(x.state.value.session);
    hide Odd;
  }

  lemma CompletionKeeps(x: Entry, y: Entry, made: Session)
    requires EndOk(x) && EndOk(y) && LinkedEnds(x, y, None, made) && LinkedEnds(y, x, None, made)
    requires x.pending.None? && y.pending.None?
    ensures var h := made + 1;
            var x' := x.SetRekeyState(h, true).TakeRekeyState().SetPending(h);
            var y' := Answering(y, h);
            && EndOk(x') && EndOk(y') && LinkedEnds(x', y', Some(h), h) && LinkedEnds(y', x', None, h)
            && y'.state == y.state && x'.state == x.state
  {
    hide Odd;
  }

  lemma ThirdKeeps(x: Entry, y: Entry, toX: Option<Session>, h: Session, made: Session)
    requires EndOk(x) && EndOk(y) && LinkedEnds(x, y, Some(h), made) && LinkedEnds(y, x, toX, made)
    ensures var y' := y.TakeRekeyState().SetPending(h);
            EndOk(y') && LinkedEnds(x, y', None, made) && LinkedEnds(y', x, toX, made)
  {
    hide Odd;
  }

  /** The marks of a handshake that comes to nothing, a finished drain and the time of completion have no part
      in how the ends stand. */
  lemma SameSessionsLinked(x: Entry, x': Entry, y: Entry, toX: Option<Session>, toY: Option<Session>, made: Session)
    requires EndOk(x) && EndOk(y) && LinkedEnds(x, y, toY, made) && LinkedEnds(y, x, toX, made)
    requires x'.state == x.state && x'.kBit == x.kBit && x'.pending == x.pending
    requires x'.previous == x.previous || x'.previous == None
    requires x'.rekey.Some? ==> x.pending.None?
    requires x'.rekeyInitiator == x.rekeyInitiator || x.pending.None?
    ensures EndOk(x') && LinkedEnds(x', y, toY, made) && LinkedEnds(y, x', toX, made)
  {
    hide Odd;
  }

  lemma NextInv(p: Pair, s: Step)
    requires Inv(p) && Enabled(p, s) && !s.LoseThird?
    ensures Inv(Next(p, s))
  {
    hide LinkedEnds, Odd;
    match s {
      case Complete(x) => CompletionStepKeeps(p, x);
      case ReceiveThird =>
        var y := p.third.value.0;
        ThirdKeeps(p.End(Other(y)), p.End(y), ThirdTo(p, Other(y)), p.third.value.1, p.made);
      case CutOver(x, now) => PromotionStepKeeps(p, s, x, now);
      case Deliver(f, now) => PromotionStepKeeps(p, s, f.dest, now);
      case Send(x) =>
      case Attempt(x, _) => MarkStepKeeps(p, s, x);
      case GiveUp(x) => MarkStepKeeps(p, s, x);
      case DrainDone(x) => MarkStepKeeps(p, s, x);
    }
  }

  lemma CompletionStepKeeps(p: Pair, x: Side)
    requires Inv(p) && Enabled(p, Complete(x))
    ensures Inv(Next(p, Complete(x)))
  {
    hide LinkedEnds, Odd, Answering;
    CompletionKeeps(p.End(x), p.End(Other(x)), p.made);
  }

  lemma MarkStepKeeps(p: Pair, s: Step, x: Side)
    requires Inv(p) && Enabled(p, s)
    requires (s.Attempt? && s.x == x) || s == GiveUp(x) || s == DrainDone(x)
    ensures Inv(Next(p, s))
  {
    hide LinkedEnds, Odd;
    SameSessionsLinked(p.End(x), Next(p, s).End(x), p.End(Other(x)), ThirdTo(p, x), ThirdTo(p, Other(x)), p.made);
  }

  lemma PromotionStepKeeps(p: Pair, s: Step, x: Side, now: nat)
    requires Inv(p) && Enabled(p, s)
    requires s == CutOver(x, now) || (s.Deliver? && s.f.dest == x && s.now == now)
    ensures Inv(Next(p, s))
  {
    hide LinkedEnds, Odd, FramesOk, Entry.PeerFlip, Entry.Cutover;
    var e, y := p.End(x), p.End(Other(x));
    var toX, toY, flipped := ThirdTo(p, x), ThirdTo(p, Other(x)), e.PeerFlip(now);
    PromotionKeeps(e, y, toX, toY, p.made, now);
    SameSessionsLinked(flipped, flipped.(rekeyCompleted := 0), y, toX, toY, p.made);
    var e' := Next(p, s).End(x);
    assert e' == e || e' == flipped || e' == flipped.(rekeyCompleted := 0);
    ReplaceEnd(p, x, e');
  }

  lemma ReplaceEnd(p: Pair, x: Side, e: Entry)
    requires Inv(p) && EndOk(e) && e.state.value.session >= p.Current(x)
    requires LinkedEnds(e, p.End(Other(x)), ThirdTo(p, Other(x)), p.made)
    requires LinkedEnds(p.End(Other(x)), e, ThirdTo(p, x), p.made)
    ensures Inv(p.With(x, e))
  {
    hide LinkedEnds, Odd;
  }

  lemma {:induction false} RunInv(p: Pair, steps: seq<Step>, end: Pair)
    requires Inv(p) && Run(p, steps, end) && NoThirdLost(steps)
    ensures Inv(end)
    decreases |steps|
  {
    hide Inv, Next, Enabled, Working;
    if steps != [] {
      NextInv(p, steps[0]);
      RunInv(Next(p, steps[0]), steps[1..], end);
    }
  }

  // ----- runs in which no third message is lost -----

  /** Agreement in every state reached without a lost third message, however late it arrives: the ends are
      never more than one session apart, equal K-bits mean equal sessions, and the end behind, once the
      handshake reached it, has the other's session pending. */
  lemma EndsAgree(larger: Side, steps: seq<Step>, p: Pair, x: Side)
    requires Run(Start(larger), steps, p) && NoThirdLost(steps)
    ensures Working(p)
    ensures p.End(x).kBit == p.End(Other(x)).kBit <==> p.Current(x) == p.Current(Other(x))
    ensures p.Current(x) <= p.Current(Other(x)) + 1
    ensures p.Current(x) == p.Current(Other(x)) + 1 && p.third.None? ==> p.End(Other(x)).pending == Some(p.Current(x))
  {
    StartInv(larger);
    RunInv(Start(larger), steps, p);
    assert Linked(p, x) && Linked(p, Other(x));
  }

  /** In any state at all, after losses too, the K-bit decides which sessions are tried: the pending one only
      on a differing bit, the previous one only if that did not bring the pending one in. */
  lemma ReadableIff(e: Entry, f: Frame, now: nat)
    requires e.IsEstablished()
    ensures Decrypts(Arrived(e, f, now), f)
            <==> f.session == e.state.value.session
                 || (e.pending == Some(f.session) && f.kBit != e.kBit)
                 || (e.previous == Some(f.session) && (f.kBit == e.kBit || e.pending.None?))
  {}

  /** Exactly which frames of its peer an end can decrypt on arrival: those of its own session, those of the
      next once it has that pending, and those of the one before while that is kept and no further session
      is pending. */
  lemma DecryptedIff(larger: Side, steps: seq<Step>, p: Pair, f: Frame, now: nat)
    requires Run(Start(larger), steps, p) && NoThirdLost(steps) && f in p.frames
    ensures var e := p.End(f.dest);
            e.IsEstablished() &&
            var g := e.state.value.session;
            Decrypts(Arrived(e, f, now), f)
            <==> f.session == g
                 || (f.session == g + 1 && e.pending.Some?)
                 || (f.session + 1 == g && e.previous.Some? && e.pending.None?)
  {
    StartInv(larger);
    RunInv(Start(larger), steps, p);
    ArrivedOutcome(p.End(f.dest), f, now);
  }

  lemma ArrivedOutcome(e: Entry, f: Frame, now: nat)
    requires EndOk(e) && f.kBit == Odd(f.session)
    ensures var g := e.state.value.session;
            Decrypts(Arrived(e, f, now), f)
            <==> f.session == g
                 || (f.session == g + 1 && e.pending.Some?)
                 || (f.session + 1 == g && e.previous.Some? && e.pending.None?)
  {
    Parity(e.state.value.session);
    Parity(f.session);
    hide Odd;
  }

  /** No frame sent since the sender's last promotion is lost to rotation: it decrypts, however late it
      arrives, once no third message is under way and while the receiver has not moved on. */
  lemma CurrentFramesDecrypt(larger: Side, steps: seq<Step>, p: Pair, f: Frame, now: nat)
    requires Run(Start(larger), steps, p) && NoThirdLost(steps) && f in p.frames && p.third.None?
    requires p.End(Other(f.dest)).IsEstablished() && f.session == p.Current(Other(f.dest))
    requires p.End(f.dest).IsEstablished() && p.Current(f.dest) <= f.session
    ensures Decrypts(Arrived(p.End(f.dest), f, now), f)
  {
    DecryptedIff(larger, steps, p, f, now);
    EndsAgree(larger, steps, p, Other(f.dest));
  }

  // ----- exactly when rotation is safe -----

  /** An end reads what its peer sends now. */
  ghost predicate Heard(p: Pair, x: Side)
    requires Working(p)
  {
    forall now: nat :: Decrypts(Arrived(p.End(Other(x)), FrameFrom(p, x), now), FrameFrom(p, x))
  }

  /** With no third message under way, an end whose session is not older than its peer's is heard. */
  ghost predicate Sound(p: Pair)
    requires Working(p)
  {
    p.third.None? ==> forall x {:trigger Heard(p, x)} | p.Current(Other(x)) <= p.Current(x) :: Heard(p, x)
  }

  /** From here on everything is sound as long as no further third message is lost. */
  ghost predicate Safe(p: Pair) {
    forall more, q | Run(p, more, q) && NoThirdLost(more) && Working(q) :: Sound(q)
  }

  lemma InvIsSafe(p: Pair)
    requires Inv(p)
    ensures Safe(p)
  {
    forall more, q | Run(p, more, q) && NoThirdLost(more) && Working(q) ensures Sound(q) {
      RunInv(p, more, q);
      InvIsSound(q);
    }
  }

  lemma InvIsSound(p: Pair)
    requires Inv(p)
    ensures Working(p) && Sound(p)
  {
    forall x, now: nat | p.third.None? && p.Current(Other(x)) <= p.Current(x)
      ensures Decrypts(Arrived(p.End(Other(x)), FrameFrom(p, x), now), FrameFrom(p, x))
    {
      assert Linked(p, x) && Linked(p, Other(x));
      ArrivedOutcome(p.End(Other(x)), FrameFrom(p, x), now);
    }
  }

  /** After a loss the initiator is at most its own cutover away from not being heard. */
  lemma LossIsUnsafe(p: Pair)
    requires Inv(p) && p.third.Some?
    ensures !Safe(Next(p, LoseThird))
  {
    var q, y := Next(p, LoseThird), p.third.value.0;
    var x := Other(y);
    assert Linked(p, x) && Linked(p, y);
    if q.End(x).pending.Some? {
      var r := Next(q, CutOver(x, 0));
      assert [CutOver(x, 0)][1..] == [];
      assert Run(r, [], r) && Run(q, [CutOver(x, 0)], r);
      Unheard(r, x);
    } else {
      assert Run(q, [], q);
      Unheard(q, x);
    }
  }

  lemma Unheard(p: Pair, x: Side)
    requires Working(p) && p.third.None? && p.Current(x) == p.Current(Other(x)) + 1
    requires p.End(Other(x)).pending.None? && p.End(Other(x)).previous != Some(p.Current(x))
    ensures !Sound(p)
  {
    assert !Decrypts(Arrived(p.End(Other(x)), FrameFrom(p, x), 0), FrameFrom(p, x));
    assert !Heard(p, x);
  }

  /** The states along a run. */
  ghost predicate Path(states: seq<Pair>, steps: seq<Step>, larger: Side) {
    && |states| == |steps| + 1 && states[0] == Start(larger)
    && forall k | 0 <= k < |steps| ::
         Working(states[k]) && Enabled(states[k], steps[k]) && states[k + 1] == Next(states[k], steps[k])
  }

  lemma {:induction false} PathInv(states: seq<Pair>, steps: seq<Step>, larger: Side, n: nat)
    requires Path(states, steps, larger) && n <= |steps| && NoThirdLost(steps[..n])
    ensures Inv(states[n])
  {
    if n == 0 {
      StartInv(larger);
    } else {
      assert steps[..n - 1] == steps[..n][..n - 1];
      PathInv(states, steps, larger, n - 1);
      assert steps[n - 1] in steps[..n];
      NextInv(states[n - 1], steps[n - 1]);
    }
  }

  /** The exact condition, over every run: rotation stays safe at every moment if and only if no third
      message is lost. */
  lemma SafeIffNoThirdLost(states: seq<Pair>, steps: seq<Step>, larger: Side)
    requires Path(states, steps, larger)
    ensures (forall k | 0 <= k < |states| :: Safe(states[k])) <==> NoThirdLost(steps)
  {
    hide Inv, Safe, Next, Enabled, Working;
    if NoThirdLost(steps) {
      forall k | 0 <= k < |states| ensures Safe(states[k]) {
        assert NoThirdLost(steps[..k]);
        PathInv(states, steps, larger, k);
        InvIsSafe(states[k]);
      }
    } else {
      var n := FirstLoss(steps);
      PathInv(states, steps, larger, n);
      LossAt(states, steps, larger, n);
    }
  }

  lemma LossAt(states: seq<Pair>, steps: seq<Step>, larger: Side, n: nat)
    requires Path(states, steps, larger) && n < |steps| && steps[n] == LoseThird && Inv(states[n])
    ensures !Safe(states[n + 1])
  {
    hide Inv, Safe;
    assert Enabled(states[n], steps[n]);
    LossIsUnsafe(states[n]);
  }

  lemma {:induction false} FirstLoss(steps: seq<Step>) returns (n: nat)
    requires !NoThirdLost(steps)
    ensures n < |steps| && steps[n] == LoseThird && NoThirdLost(steps[..n])
  {
    if steps[0] == LoseThird {
      n := 0;
    } else {
      var k := FirstLoss(steps[1..]);
      n := k + 1;
      assert steps[..n] == [steps[0]] + steps[1..][..k];
    }
  }

  /** A lost third message and one more rotation: equal K-bits, different sessions, and neither end hears the
      other. The second handshake goes through because the end left behind has the larger address. */
  lemma LostThirdRun() returns (states: seq<Pair>, steps: seq<Step>)
    ensures Path(states, steps, Right) && |states| == 7
    ensures var p := states[6];
            && Working(p) && p.third.None? && p.left.kBit == p.right.kBit
            && p.Current(Left) == 2 && p.Current(Right) == 0
            && !Heard(p, Left) && !Heard(p, Right)
  {
    var fresh0 := NewEntry(Established(0));
    var offered := fresh0.(pending := Some(1), rekeyInitiator := true);
    var waiting := fresh0.(rekey := Some(1));
    var ahead := Entry(Some(Established(1)), true, Some(0), 1, None, None, false, 0, 1);
    var again := ahead.(pending := Some(2), rekeyInitiator := true);
    var behind := fresh0.(pending := Some(2));
    var lone := Entry(Some(Established(2)), false, Some(1), 2, None, None, false, 0, 2);
    steps := [Complete(Left), LoseThird, CutOver(Left, 1), Complete(Left), ReceiveThird, CutOver(Left, 2)];
    states := [Start(Right),
               Pair(offered, waiting, {}, Some((Right, 1)), 1, Right),
               Pair(offered, waiting, {}, None, 1, Right),
               Pair(ahead, waiting, {}, None, 1, Right),
               Pair(again, fresh0.(rekey := Some(2)), {}, Some((Right, 2)), 2, Right),
               Pair(again, behind, {}, None, 2, Right),
               Pair(lone, behind, {}, None, 2, Right)];
    LostThirdSteps(states, steps);
    var p := states[6];
    assert !Decrypts(Arrived(p.right, FrameFrom(p, Left), 0), FrameFrom(p, Left));
    assert !Decrypts(Arrived(p.left, FrameFrom(p, Right), 0), FrameFrom(p, Right));
  }

  /** A path of six steps, checked one by one. */
  lemma LostThirdSteps(states: seq<Pair>, steps: seq<Step>)
    requires |states| == 7 && |steps| == 6 && states[0] == Start(Right)
    requires Working(states[0]) && Enabled(states[0], steps[0]) && states[1] == Next(states[0], steps[0])
    requires Working(states[1]) && Enabled(states[1], steps[1]) && states[2] == Next(states[1], steps[1])
    requires Working(states[2]) && Enabled(states[2], steps[2]) && states[3] == Next(states[2], steps[2])
    requires Working(states[3]) && Enabled(states[3], steps[3]) && states[4] == Next(states[3], steps[3])
    requires Working(states[4]) && Enabled(states[4], steps[4]) && states[5] == Next(states[4], steps[4])
    requires Working(states[5]) && Enabled(states[5], steps[5]) && states[6] == Next(states[5], steps[5])
    ensures Path(states, steps, Right)
  {
    hide Working, Enabled, Next;
    forall k | 0 <= k < 6
      ensures Working(states[k]) && Enabled(states[k], steps[k]) && states[k + 1] == Next(states[k], steps[k])
    {
      assert k == 0 || k == 1 || k == 2 || k == 3 || k == 4 || k == 5;
    }
  }
}
