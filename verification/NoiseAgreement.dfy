/**
  What two ends of a handshake agree on: after every message of an honest run, and whenever their final
  hashes are equal, whatever was delivered in between.
*/
module NoiseAgreement {
  import opened Basics
  import opened NoiseSymbols
  import opened NoiseHandshake

  function Pieces<T>(r: Result<seq<T>>): seq<T> {
    if r.Ok? then r.value else []
  }

  function InitiatorStart(pattern: Pattern, own: Keypair, known: PublicKey, epoch: Data): Hs {
    NewHs(pattern, Initiator, own, Some(known), known).(localEpoch := Some(epoch))
  }

  function ResponderStart(pattern: Pattern, own: Keypair, epoch: Data): Hs {
    NewHs(pattern, Responder, own, None, own.Public()).(localEpoch := Some(epoch))
  }

  /** The inputs of a run. `known` is the responder's key as the initiator has it. */
  datatype Inputs = Inputs(i: Keypair, r: Keypair, known: PublicKey, ie: Keypair, re: Keypair, iEpoch: Data,
                           rEpoch: Data) {
    predicate Valid() {
      Len(iEpoch) == EPOCH_SIZE && Len(rEpoch) == EPOCH_SIZE
    }
  }

  // ----- IK -----

  /** The initiator after writing message 1 and the responder after reading `n1`. */
  function IkI1(p: Inputs): (Hs, Message)
    requires p.Valid()
  {
    var (h, m) := InitiatorStart(Ik, p.i, p.known, p.iEpoch).WriteMessage1(p.ie);
    (h, Pieces(m))
  }

  function IkR1(p: Inputs, n1: Message): (Hs, Result<()>)
    requires p.Valid()
  {
    ResponderStart(Ik, p.r, p.rEpoch).ReadMessage1(n1)
  }

  /** The responder after writing message 2, when it accepted `n1`, and the initiator after reading `n2`. */
  function IkR2(p: Inputs, n1: Message): (Hs, Message)
    requires p.Valid() && IkR1(p, n1).1.Ok?
  {
    var (h, m) := IkR1(p, n1).0.WriteMessage2(p.re);
    (h, Pieces(m))
  }

  function IkI2(p: Inputs, n2: Message): (Hs, Result<()>)
    requires p.Valid()
  {
    IkI1(p).0.ReadMessage2(n2)
  }

  /** The responder accepts an honest message 1 exactly when the initiator has its key right up to parity;
      then both hold the same chaining key, hash and cipher, and the responder knows who called. */
  lemma IkMessage1Agreement(p: Inputs)
    requires p.Valid()
    ensures var i1, r1 := IkI1(p), IkR1(p, IkI1(p).1);
            && (r1.1.Ok? <==> p.known.x == p.r.x)
            && (r1.1.Err? ==> r1.1 == Err(DecryptionFailed))
            && (r1.1.Ok? ==> i1.0.sym == r1.0.sym && r1.0.remoteStatic == Some(p.i.Public())
                             && r1.0.remoteEpoch == Some(p.iEpoch)
                             && i1.0.progress == r1.0.progress == Message1Done)
  {
    assert Cut(IkI1(p).1, [PUBKEY_SIZE, SEALED_KEY, SEALED_EPOCH]);
  }

  /** An honest run of IK, for any keys of either parity, ephemerals and epochs: both ends complete with
      equal symmetric states, each other's identity and epoch, and crossed transport keys. */
  lemma IkAgreement(p: Inputs)
    requires p.Valid() && p.known.x == p.r.x
    ensures IkR1(p, IkI1(p).1).1.Ok?
    ensures var (r2, m2) := IkR2(p, IkI1(p).1);
            var (i2, ok) := IkI2(p, m2);
            ok.Ok? && Agreed(i2, r2, p)
  {
    IkMessage1Agreement(p);
    var (r2, m2) := IkR2(p, IkI1(p).1);
    assert Cut(m2, [PUBKEY_SIZE, SEALED_EPOCH]);
  }

  /** Both ends are complete with equal symmetric states, each other's keys and epochs, and sessions that name the
      peer: the initiator sends with the first key of the split and the responder with the second. */
  ghost predicate Agreed(i: Hs, r: Hs, p: Inputs) {
    && i.progress == r.progress == Complete && i.sym == r.sym
    && p.known.x == p.r.x && i.remoteStatic == Some(p.known) && r.remoteStatic == Some(p.i.Public())
    && i.remoteEphemeral == Some(p.re.Public()) && r.remoteEphemeral == Some(p.ie.Public())
    && i.remoteEpoch == Some(p.rEpoch) && r.remoteEpoch == Some(p.iEpoch)
    && i.IntoSession().Ok? && r.IntoSession().Ok?
    && var a, b := i.IntoSession().value, r.IntoSession().value;
       && a.role == Initiator && b.role == Responder
       && a.remoteStatic == p.known && a.remoteStatic.x == p.r.x && b.remoteStatic == p.i.Public()
       && a.sendKey == b.recvKey == First(i.sym.ck) && a.recvKey == b.sendKey == Second(i.sym.ck)
       && a.sendKey != a.recvKey && a.handshakeHash == b.handshakeHash == i.sym.h
  }

  /** Before the last message neither end of IK has a session. */
  lemma IkNoSessionEarly(p: Inputs, n1: Message)
    requires p.Valid() && IkR1(p, n1).1.Ok?
    ensures IkI1(p).0.IntoSession() == Err(HandshakeNotComplete)
    ensures IkR1(p, n1).0.IntoSession() == Err(HandshakeNotComplete)
  {}

  /** The keys of an IK run come from exactly four exchanges, in this order: the initiator's ephemeral and its
      static key with the responder's static key, the two ephemerals, and the first of these again. */
  lemma IkExchanges(p: Inputs)
    requires p.Valid() && p.known.x == p.r.x && IkR1(p, IkI1(p).1).1.Ok?
    ensures IkR2(p, IkI1(p).1).0.sym.ck
            == Mixed(Mixed(Mixed(Mixed(Start(Ik), Ecdh(p.ie, p.r.Public())), Ecdh(p.i, p.r.Public())),
                           Ecdh(p.ie, p.re.Public())), Ecdh(p.ie, p.r.Public()))
  {}

  /** What an honest IK run puts on the wire: the ephemerals in the clear, the initiator's identity and the epochs
      each sealed under a key of its own, derived from all exchanges so far. */
  lemma IkWire(p: Inputs)
    requires p.Valid() && p.known.x == p.r.x && IkR1(p, IkI1(p).1).1.Ok?
    ensures var es, ss, ee := Ecdh(p.ie, p.r.Public()), Ecdh(p.i, p.r.Public()), Ecdh(p.ie, p.re.Public());
            var one := Mixed(Start(Ik), es);
            var three := Mixed(Mixed(one, ss), ee);
            && IkI1(p).1 == [KeyBytes(p.ie.Public()), Sealed(Derived(Start(Ik), es), 0, KeyBytes(p.i.Public())),
                             Sealed(Derived(one, ss), 0, p.iEpoch)]
            && IkR2(p, IkI1(p).1).1 == [KeyBytes(p.re.Public()), Sealed(Derived(three, es), 0, p.rEpoch)]
  {}

  /** The final hash of the responder covers its own key, with the parity forgotten, and every piece in order. */
  lemma IkHashCovers(p: Inputs, n1: Message)
    requires p.Valid() && IkR1(p, n1).1.Ok?
    ensures Transcript(IkR2(p, n1).0.sym.h) == [KeyBytes(PublicKey(p.r.x, false))] + n1 + IkR2(p, n1).1
  {
    IkResponderTranscript(p, n1);
  }

  lemma IkInitiatorTranscript(p: Inputs, n2: Message)
    requires p.Valid() && IkI2(p, n2).1.Ok?
    ensures var h := IkI2(p, n2).0.sym.h;
            PatternOf(h) == Ik && Transcript(h) == [NormalizeForPremessage(p.known)] + IkI1(p).1 + n2
  {
    var pre, m1 := NormalizeForPremessage(p.known), IkI1(p).1;
    HashOfSix(Ik, pre, m1[0], m1[1], m1[2], n2[0], n2[1]);
    assert [pre] + m1 + n2 == [pre, m1[0], m1[1], m1[2], n2[0], n2[1]];
  }

  lemma IkResponderTranscript(p: Inputs, n1: Message)
    requires p.Valid() && IkR1(p, n1).1.Ok?
    ensures var (r2, m2) := IkR2(p, n1);
            PatternOf(r2.sym.h) == Ik && Transcript(r2.sym.h) == [NormalizeForPremessage(p.r.Public())] + n1 + m2
            && |n1| == 3 && |m2| == 2
  {
    var pre, m2 := NormalizeForPremessage(p.r.Public()), IkR2(p, n1).1;
    HashOfSix(Ik, pre, n1[0], n1[1], n1[2], m2[0], m2[1]);
    assert [pre] + n1 + m2 == [pre, n1[0], n1[1], n1[2], m2[0], m2[1]];
  }

  lemma HashOfSix(pattern: Pattern, a: Data, b: Data, c: Data, d: Data, e: Data, f: Data)
    ensures var h := Then(Then(Then(Then(Then(Then(Begin(pattern), a), b), c), d), e), f);
            PatternOf(h) == pattern && Transcript(h) == [a, b, c, d, e, f]
  {
    var h1 := Then(Begin(pattern), a);
    assert Transcript(h1) == Transcript(Begin(pattern)) + [a] && PatternOf(h1) == pattern;
    var h2 := Then(h1, b);
    assert Transcript(h2) == Transcript(h1) + [b] && PatternOf(h2) == PatternOf(h1);
    var h3 := Then(h2, c);
    assert Transcript(h3) == Transcript(h2) + [c] && PatternOf(h3) == PatternOf(h2);
    var h4 := Then(h3, d);
    assert Transcript(h4) == Transcript(h3) + [d] && PatternOf(h4) == PatternOf(h3);
    var h5 := Then(h4, e);
    assert Transcript(h5) == Transcript(h4) + [e] && PatternOf(h5) == PatternOf(h4);
    assert Transcript(Then(h5, f)) == Transcript(h5) + [f] && PatternOf(Then(h5, f)) == PatternOf(h5);
  }

  /** Two ends that both completed, whatever each was handed, have equal hashes exactly when each read what
      the other wrote and they mean the same responder; and then they agree on everything. */
  lemma IkHashBinds(p: Inputs, n1: Message, n2: Message)
    requires p.Valid() && IkR1(p, n1).1.Ok? && IkI2(p, n2).1.Ok?
    ensures var (i2, r2) := (IkI2(p, n2).0, IkR2(p, n1).0);
            && (i2.sym.h == r2.sym.h <==> n1 == IkI1(p).1 && n2 == IkR2(p, n1).1 && p.known.x == p.r.x)
            && (i2.sym.h == r2.sym.h ==> Agreed(i2, r2, p))
  {
    var i2, r2, m1, m2 := IkI2(p, n2).0, IkR2(p, n1).0, IkI1(p).1, IkR2(p, n1).1;
    IkInitiatorTranscript(p, n2);
    IkResponderTranscript(p, n1);
    HashIsTranscript(i2.sym.h, r2.sym.h);
    SameParts(NormalizeForPremessage(p.known), m1, n2, NormalizeForPremessage(p.r.Public()), n1, m2);
    if n1 == m1 && n2 == m2 && p.known.x == p.r.x {
      IkAgreement(p);
    }
  }

  /** Concatenations of pieces of the same number are equal exactly part by part. */
  lemma SameParts(a: Data, b: Message, c: Message, x: Data, y: Message, z: Message)
    requires |b| == |y|
    ensures [a] + b + c == [x] + y + z <==> a == x && b == y && c == z
  {
    var s, t := [a] + b + c, [x] + y + z;
    if s == t {
      assert s[0] == t[0];
      assert s[1..|b| + 1] == b && t[1..|y| + 1] == y;
      assert s[|b| + 1..] == c && t[|y| + 1..] == z;
    }
  }

  // ----- XK -----

  function XkI1(p: Inputs): (Hs, Message)
    requires p.Valid()
  {
    var (h, m) := InitiatorStart(Xk, p.i, p.known, p.iEpoch).WriteXkMessage1(p.ie);
    (h, Pieces(m))
  }

  function XkR1(p: Inputs, n1: Message): (Hs, Result<()>)
    requires p.Valid()
  {
    ResponderStart(Xk, p.r, p.rEpoch).ReadXkMessage1(n1)
  }

  function XkR2(p: Inputs, n1: Message): (Hs, Message)
    requires p.Valid() && XkR1(p, n1).1.Ok?
  {
    var (h, m) := XkR1(p, n1).0.WriteXkMessage2(p.re);
    (h, Pieces(m))
  }

  function XkI2(p: Inputs, n2: Message): (Hs, Result<()>)
    requires p.Valid()
  {
    XkI1(p).0.ReadXkMessage2(n2)
  }

  function XkI3(p: Inputs, n2: Message): (Hs, Message)
    requires p.Valid() && XkI2(p, n2).1.Ok?
  {
    var (h, m) := XkI2(p, n2).0.WriteXkMessage3();
    (h, Pieces(m))
  }

  function XkR3(p: Inputs, n1: Message, n3: Message): (Hs, Result<()>)
    requires p.Valid() && XkR1(p, n1).1.Ok?
  {
    XkR2(p, n1).0.ReadXkMessage3(n3)
  }

  /** The first message of XK is sealed with nothing: an honest one is always accepted, and the initiator
      accepts the answer exactly when it has the responder's key right up to parity. */
  lemma XkMessage2Agreement(p: Inputs)
    requires p.Valid()
    ensures XkR1(p, XkI1(p).1).1.Ok?
    ensures var (r2, m2) := XkR2(p, XkI1(p).1);
            var (i2, ok) := XkI2(p, m2);
            && (ok.Ok? <==> p.known.x == p.r.x)
            && (ok.Ok? ==> XkI1(p).0.sym == XkR1(p, XkI1(p).1).0.sym && i2.sym == r2.sym
                           && i2.remoteEpoch == Some(p.rEpoch) && i2.progress == r2.progress == Message2Done)
  {}

  /** An honest run of XK, for any keys of either parity, ephemerals and epochs. */
  lemma XkAgreement(p: Inputs)
    requires p.Valid() && p.known.x == p.r.x
    ensures XkR1(p, XkI1(p).1).1.Ok?
    ensures var m1 := XkI1(p).1;
            var m2 := XkR2(p, m1).1;
            XkI2(p, m2).1.Ok? &&
            var (i3, m3) := XkI3(p, m2);
            var (r3, ok) := XkR3(p, m1, m3);
            ok.Ok? && Agreed(i3, r3, p)
  {
    XkMessage2Agreement(p);
    var m1 := XkI1(p).1;
    var m2 := XkR2(p, m1).1;
    assert Cut(XkI3(p, m2).1, [SEALED_KEY, SEALED_EPOCH]);
  }

  /** Before its last message neither end of XK has a session. */
  lemma XkNoSessionEarly(p: Inputs, n1: Message, n2: Message)
    requires p.Valid() && XkR1(p, n1).1.Ok? && XkI2(p, n2).1.Ok?
    ensures XkI1(p).0.IntoSession() == XkR1(p, n1).0.IntoSession() == Err(HandshakeNotComplete)
    ensures XkR2(p, n1).0.IntoSession() == XkI2(p, n2).0.IntoSession() == Err(HandshakeNotComplete)
  {}

  /** What an honest XK run puts on the wire and where its keys come from: three exchanges, and no two pieces
      sealed alike, two of them under one key with different nonces. */
  lemma XkWire(p: Inputs)
    requires p.Valid() && p.known.x == p.r.x && XkR1(p, XkI1(p).1).1.Ok?
    requires XkI2(p, XkR2(p, XkI1(p).1).1).1.Ok?
    ensures var es, ee, se := Ecdh(p.ie, p.r.Public()), Ecdh(p.ie, p.re.Public()), Ecdh(p.i, p.re.Public());
            var one := Mixed(Start(Xk), es);
            var m2 := XkR2(p, XkI1(p).1).1;
            && XkI1(p).1 == [KeyBytes(p.ie.Public())]
            && m2 == [KeyBytes(p.re.Public()), Sealed(Derived(one, ee), 0, p.rEpoch)]
            && XkI3(p, m2).1 == [Sealed(Derived(one, ee), 1, KeyBytes(p.i.Public())),
                                 Sealed(Derived(Mixed(one, ee), se), 0, p.iEpoch)]
            && XkI3(p, m2).0.sym.ck == Mixed(Mixed(one, ee), se)
  {}

  lemma XkInitiatorTranscript(p: Inputs, n2: Message)
    requires p.Valid() && XkI2(p, n2).1.Ok?
    ensures var (i3, m3) := XkI3(p, n2);
            PatternOf(i3.sym.h) == Xk && |n2| == 2
            && Transcript(i3.sym.h) == [NormalizeForPremessage(p.known)] + XkI1(p).1 + (n2 + m3)
  {
    var pre, m1, m3 := NormalizeForPremessage(p.known), XkI1(p).1, XkI3(p, n2).1;
    HashOfSix(Xk, pre, m1[0], n2[0], n2[1], m3[0], m3[1]);
    assert [pre] + m1 + (n2 + m3) == [pre, m1[0], n2[0], n2[1], m3[0], m3[1]];
  }

  lemma XkResponderTranscript(p: Inputs, n1: Message, n3: Message)
    requires p.Valid() && XkR1(p, n1).1.Ok? && XkR3(p, n1, n3).1.Ok?
    ensures var h, m2 := XkR3(p, n1, n3).0.sym.h, XkR2(p, n1).1;
            PatternOf(h) == Xk && |n1| == 1 && |m2| == 2
            && Transcript(h) == [NormalizeForPremessage(p.r.Public())] + n1 + (m2 + n3)
  {
    var pre, m2 := NormalizeForPremessage(p.r.Public()), XkR2(p, n1).1;
    HashOfSix(Xk, pre, n1[0], m2[0], m2[1], n3[0], n3[1]);
    assert [pre] + n1 + (m2 + n3) == [pre, n1[0], m2[0], m2[1], n3[0], n3[1]];
  }

  /** The same binding for XK, over all three messages. */
  lemma XkHashBinds(p: Inputs, n1: Message, n2: Message, n3: Message)
    requires p.Valid() && XkR1(p, n1).1.Ok? && XkI2(p, n2).1.Ok? && XkR3(p, n1, n3).1.Ok?
    ensures var (i3, r3) := (XkI3(p, n2).0, XkR3(p, n1, n3).0);
            && (i3.sym.h == r3.sym.h
                <==> n1 == XkI1(p).1 && n2 == XkR2(p, n1).1 && n3 == XkI3(p, n2).1 && p.known.x == p.r.x)
            && (i3.sym.h == r3.sym.h ==> Agreed(i3, r3, p))
  {
    var i3, r3, m1, m2, m3 := XkI3(p, n2).0, XkR3(p, n1, n3).0, XkI1(p).1, XkR2(p, n1).1, XkI3(p, n2).1;
    XkInitiatorTranscript(p, n2);
    XkResponderTranscript(p, n1, n3);
    HashIsTranscript(i3.sym.h, r3.sym.h);
    SameParts(NormalizeForPremessage(p.known), m1, n2 + m3, NormalizeForPremessage(p.r.Public()), n1, m2 + n3);
    SameHalves(n2, m3, m2, n3);
    if n1 == m1 && n2 == m2 && n3 == m3 && p.known.x == p.r.x {
      XkAgreement(p);
    }
  }

  lemma SameHalves(a: Message, b: Message, c: Message, d: Message)
    requires |a| == |c|
    ensures a + b == c + d <==> a == c && b == d
  {
    if a + b == c + d {
      assert (a + b)[..|a|] == a && (c + d)[..|c|] == c;
      assert (a + b)[|a|..] == b && (c + d)[|c|..] == d;
    }
  }

  // ----- a second try -----

  /** A failed read is not undone. After a rejected message 1 an honest one is accepted exactly if the
      rejected one had the wrong length or did not begin with a public key. */
  lemma RetryIff(p: Inputs, bad: Message)
    requires p.Valid() && p.known.x == p.r.x && IkR1(p, bad).1.Err?
    ensures IkR1(p, bad).0.Valid()
    ensures IkR1(p, bad).0.ReadMessage1(IkI1(p).1).1.Ok?
            <==> !Cut(bad, [PUBKEY_SIZE, SEALED_KEY, SEALED_EPOCH]) || Parse(bad[0]).Err?
  {
    var m1 := IkI1(p).1;
    assert Cut(m1, [PUBKEY_SIZE, SEALED_KEY, SEALED_EPOCH]);
    if !Cut(bad, [PUBKEY_SIZE, SEALED_KEY, SEALED_EPOCH]) || Parse(bad[0]).Err? {
      IkMessage1Agreement(p);
    } else {
      var r := IkR1(p, bad).0;
      assert r.sym.ck.Mixed?;
      assert r.ReceiveE(p.ie.Public()).Dh(p.r, p.ie.Public()).sym.Decrypted(m1[1]).Err?;
    }
  }

  /** The same of message 2 at the initiator. */
  lemma SecondRetryIff(p: Inputs, bad: Message)
    requires p.Valid() && p.known.x == p.r.x && IkR1(p, IkI1(p).1).1.Ok? && IkI2(p, bad).1.Err?
    ensures IkI2(p, bad).0.Valid()
    ensures IkI2(p, bad).0.ReadMessage2(IkR2(p, IkI1(p).1).1).1.Ok?
            <==> !Cut(bad, [PUBKEY_SIZE, SEALED_EPOCH]) || Parse(bad[0]).Err?
  {
    var m2 := IkR2(p, IkI1(p).1).1;
    assert Cut(m2, [PUBKEY_SIZE, SEALED_EPOCH]);
    if !Cut(bad, [PUBKEY_SIZE, SEALED_EPOCH]) || Parse(bad[0]).Err? {
      IkAgreement(p);
    } else {
      var i, re := IkI2(p, bad).0, p.re.Public();
      assert i.sym.ck.Mixed? && i.progress == Message1Done;
      assert i.ReceiveE(re).Dh(p.ie, re).Dh(p.ie, p.known).sym.Decrypted(m2[1]).Err?;
    }
  }

  /** And of the third message of XK, where the failed decryption has used up the nonce: only one of the wrong
      length does no harm. */
  lemma ThirdRetryIff(p: Inputs, bad: Message)
    requires p.Valid() && p.known.x == p.r.x && XkR1(p, XkI1(p).1).1.Ok?
    requires XkI2(p, XkR2(p, XkI1(p).1).1).1.Ok? && XkR3(p, XkI1(p).1, bad).1.Err?
    ensures XkR3(p, XkI1(p).1, bad).0.Valid()
    ensures XkR3(p, XkI1(p).1, bad).0.ReadXkMessage3(XkI3(p, XkR2(p, XkI1(p).1).1).1).1.Ok?
            <==> !Cut(bad, [SEALED_KEY, SEALED_EPOCH])
  {
    var m1 := XkI1(p).1;
    var m3 := XkI3(p, XkR2(p, m1).1).1;
    XkWire(p);
    assert Cut(m3, [SEALED_KEY, SEALED_EPOCH]);
    if !Cut(bad, [SEALED_KEY, SEALED_EPOCH]) {
      XkAgreement(p);
    } else {
      var r := XkR3(p, m1, bad).0;
      assert r.sym.Decrypted(m3[0]).Err?;
    }
  }

  // ----- messages out of turn or cut short -----

  predicate Refuses<T(==)>(h: Hs, outcome: (Hs, Result<T>), error: NoiseError) {
    outcome == (h, Err(error))
  }

  /** A message method called by the wrong role, or by the right one at the wrong stage, says so and changes
      nothing. */
  lemma OutOfTurn(h: Hs, e: Keypair, m: Message)
    requires h.Valid() && h.localEpoch.Some?
    ensures h.role != Initiator ==> var no := WrongRole(Initiator, h.role);
              && Refuses(h, h.WriteMessage1(e), no) && Refuses(h, h.ReadMessage2(m), no)
              && Refuses(h, h.WriteXkMessage1(e), no) && Refuses(h, h.ReadXkMessage2(m), no)
              && Refuses(h, h.WriteXkMessage3(), no)
    ensures h.role != Responder ==> var no := WrongRole(Responder, h.role);
              && Refuses(h, h.ReadMessage1(m), no) && Refuses(h, h.WriteMessage2(e), no)
              && Refuses(h, h.ReadXkMessage1(m), no) && Refuses(h, h.WriteXkMessage2(e), no)
              && Refuses(h, h.ReadXkMessage3(m), no)
    ensures h.progress != Initial ==> var no := WrongState(Initial, h.progress);
              if h.role == Initiator then Refuses(h, h.WriteMessage1(e), no) && Refuses(h, h.WriteXkMessage1(e), no)
              else Refuses(h, h.ReadMessage1(m), no) && Refuses(h, h.ReadXkMessage1(m), no)
    ensures h.progress != Message1Done ==> var no := WrongState(Message1Done, h.progress);
              if h.role == Initiator then Refuses(h, h.ReadMessage2(m), no) && Refuses(h, h.ReadXkMessage2(m), no)
              else Refuses(h, h.WriteMessage2(e), no) && Refuses(h, h.WriteXkMessage2(e), no)
    ensures h.progress != Message2Done ==> var no := WrongState(Message2Done, h.progress);
              if h.role == Initiator then Refuses(h, h.WriteXkMessage3(), no)
              else Refuses(h, h.ReadXkMessage3(m), no)
  {}

  /** In turn, a message of the wrong length is refused with the length it should have, and changes nothing. */
  lemma WrongLength(h: Hs, m: Message)
    requires h.Valid()
    ensures h.role == Responder && h.progress == Initial
            && (|m| != 3 || Len(m[0]) != PUBKEY_SIZE || Len(m[1]) != PUBKEY_SIZE + 16
                || Len(m[2]) != EPOCH_SIZE + 16) ==>
              Refuses(h, h.ReadMessage1(m), MessageTooShort(PUBKEY_SIZE + (PUBKEY_SIZE + 16) + (EPOCH_SIZE + 16)))
    ensures h.role == Responder && h.progress == Initial && (|m| != 1 || Len(m[0]) != PUBKEY_SIZE) ==>
              Refuses(h, h.ReadXkMessage1(m), MessageTooShort(PUBKEY_SIZE))
    ensures h.role == Initiator && h.progress == Message1Done
            && (|m| != 2 || Len(m[0]) != PUBKEY_SIZE || Len(m[1]) != EPOCH_SIZE + 16) ==>
              var no := MessageTooShort(PUBKEY_SIZE + (EPOCH_SIZE + 16));
              Refuses(h, h.ReadMessage2(m), no) && Refuses(h, h.ReadXkMessage2(m), no)
    ensures h.role == Responder && h.progress == Message2Done
            && (|m| != 2 || Len(m[0]) != PUBKEY_SIZE + 16 || Len(m[1]) != EPOCH_SIZE + 16) ==>
              Refuses(h, h.ReadXkMessage3(m), MessageTooShort((PUBKEY_SIZE + 16) + (EPOCH_SIZE + 16)))
  {}
}
