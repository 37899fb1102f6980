/**
  The IK and XK handshakes. A message is given as its pieces at the offsets its reader cuts it at; bytes of
  the wrong length have no such pieces. Randomness enters as the ephemeral key pair.
*/
module NoiseHandshake {
  import opened Basics
  import opened NoiseSymbols

  type Message = seq<Data>

  datatype Session = Session(role: Role, sendKey: Key, recvKey: Key, handshakeHash: Hash, remoteStatic: PublicKey)

  const SEALED_KEY := 49
  const SEALED_EPOCH := 24

  predicate Cut(m: Message, sizes: seq<nat>) {
    |m| == |sizes| && forall i | 0 <= i < |m| :: Len(m[i]) == sizes[i]
  }

  datatype Hs = Hs(pattern: Pattern, role: Role, progress: Progress, sym: Sym, ownStatic: Keypair,
                   ephemeral: Option<Keypair>, remoteStatic: Option<PublicKey>, remoteEphemeral: Option<PublicKey>,
                   localEpoch: Option<Data>, remoteEpoch: Option<Data>) {

    /** What each role holds at each stage; nothing is ever unset. */
    predicate Valid() {
      && (role == Initiator ==> remoteStatic.Some?)
      && (role == Initiator && progress != Initial ==> ephemeral.Some?)
      && (role == Initiator && progress != Initial && progress != Message1Done ==> remoteEphemeral.Some?)
      && (role == Responder && progress != Initial ==> remoteEphemeral.Some?)
      && (role == Responder && progress != Initial && progress != Message1Done ==> ephemeral.Some?)
      && (localEpoch.Some? ==> Len(localEpoch.value) == EPOCH_SIZE)
    }

    /** The guards every message method begins with. */
    function Guard(expectedRole: Role, expected: Progress): Option<NoiseError> {
      if role != expectedRole then Some(WrongRole(expectedRole, role))
      else if progress != expected then Some(WrongState(expected, progress))
      else None
    }

    // The tokens of a message. Each changes the state and, when written, yields a piece.

    function SendE(e: Keypair): Hs {
      this.(ephemeral := Some(e), sym := sym.MixHash(KeyBytes(e.Public())))
    }

    function ReceiveE(re: PublicKey): Hs {
      this.(remoteEphemeral := Some(re), sym := sym.MixHash(KeyBytes(re)))
    }

    function Dh(secret: Keypair, their: PublicKey): Hs {
      this.(sym := sym.MixKey(Ecdh(secret, their)))
    }

    function SendSealed(plain: Data): Hs {
      this.(sym := sym.EncryptAndHash(plain))
    }

    function ReceiveSealed(c: Data): Hs {
      this.(sym := sym.DecryptAndHash(c))
    }

    // ----- IK -----

    function WriteMessage1(e: Keypair): (r: (Hs, Result<Message>))
      requires Valid() && localEpoch.Some?
    {
      if Guard(Initiator, Initial).Some? then (this, Err(Guard(Initiator, Initial).value))
      else
        var rs := remoteStatic.value;
        var a := SendE(e).Dh(e, rs);
        var b := a.SendSealed(KeyBytes(ownStatic.Public())).Dh(ownStatic, rs);
        (b.SendSealed(localEpoch.value).(progress := Message1Done),
         Ok([KeyBytes(e.Public()), a.sym.Encrypted(KeyBytes(ownStatic.Public())), b.sym.Encrypted(localEpoch.value)]))
    }

    function ReadMessage1(m: Message): (Hs, Result<()>)
      requires Valid()
    {
      if Guard(Responder, Initial).Some? then (this, Err(Guard(Responder, Initial).value))
      else if !Cut(m, [PUBKEY_SIZE, SEALED_KEY, SEALED_EPOCH]) then (this, Err(MessageTooShort(106)))
      else if Parse(m[0]).Err? then (this, Err(InvalidPublicKey))
      else
        var re := Parse(m[0]).value;
        var a := ReceiveE(re).Dh(ownStatic, re);
        var s, b := a.sym.Decrypted(m[1]), a.ReceiveSealed(m[1]);
        if s.Err? then (b, Err(s.error))
        else if Parse(s.value).Err? then (b, Err(InvalidPublicKey))
        else
          var rs := Parse(s.value).value;
          var c := b.(remoteStatic := Some(rs)).Dh(ownStatic, rs);
          var epoch, d := c.sym.Decrypted(m[2]), c.ReceiveSealed(m[2]);
          if epoch.Err? then (d, Err(epoch.error))
          else (d.(remoteEpoch := Some(epoch.value), progress := Message1Done), Ok(()))
    }

    /** The token after `ee` pairs the responder's static with the initiator's ephemeral key. */
    function WriteMessage2(e: Keypair): (Hs, Result<Message>)
      requires Valid() && localEpoch.Some?
    {
      if Guard(Responder, Message1Done).Some? then (this, Err(Guard(Responder, Message1Done).value))
      else
        var re := remoteEphemeral.value;
        var a := SendE(e).Dh(e, re).Dh(ownStatic, re);
        (a.SendSealed(localEpoch.value).(progress := Complete),
         Ok([KeyBytes(e.Public()), a.sym.Encrypted(localEpoch.value)]))
    }

    function ReadMessage2(m: Message): (Hs, Result<()>)
      requires Valid()
    {
      if Guard(Initiator, Message1Done).Some? then (this, Err(Guard(Initiator, Message1Done).value))
      else if !Cut(m, [PUBKEY_SIZE, SEALED_EPOCH]) then (this, Err(MessageTooShort(57)))
      else if Parse(m[0]).Err? then (this, Err(InvalidPublicKey))
      else
        var re, e := Parse(m[0]).value, ephemeral.value;
        var a := ReceiveE(re).Dh(e, re).Dh(e, remoteStatic.value);
        var epoch, b := a.sym.Decrypted(m[1]), a.ReceiveSealed(m[1]);
        if epoch.Err? then (b, Err(epoch.error))
        else (b.(remoteEpoch := Some(epoch.value), progress := Complete), Ok(()))
    }

    // ----- XK -----

    function WriteXkMessage1(e: Keypair): (Hs, Result<Message>)
      requires Valid()
    {
      if Guard(Initiator, Initial).Some? then (this, Err(Guard(Initiator, Initial).value))
      else (SendE(e).Dh(e, remoteStatic.value).(progress := Message1Done), Ok([KeyBytes(e.Public())]))
    }

    function ReadXkMessage1(m: Message): (Hs, Result<()>)
      requires Valid()
    {
      if Guard(Responder, Initial).Some? then (this, Err(Guard(Responder, Initial).value))
      else if !Cut(m, [PUBKEY_SIZE]) then (this, Err(MessageTooShort(33)))
      else if Parse(m[0]).Err? then (this, Err(InvalidPublicKey))
      else
        var re := Parse(m[0]).value;
        (ReceiveE(re).Dh(ownStatic, re).(progress := Message1Done), Ok(()))
    }

    function WriteXkMessage2(e: Keypair): (Hs, Result<Message>)
      requires Valid() && localEpoch.Some?
    {
      if Guard(Responder, Message1Done).Some? then (this, Err(Guard(Responder, Message1Done).value))
      else
        var a := SendE(e).Dh(e, remoteEphemeral.value);
        (a.SendSealed(localEpoch.value).(progress := Message2Done),
         Ok([KeyBytes(e.Public()), a.sym.Encrypted(localEpoch.value)]))
    }

    function ReadXkMessage2(m: Message): (Hs, Result<()>)
      requires Valid()
    {
      if Guard(Initiator, Message1Done).Some? then (this, Err(Guard(Initiator, Message1Done).value))
      else if !Cut(m, [PUBKEY_SIZE, SEALED_EPOCH]) then (this, Err(MessageTooShort(57)))
      else if Parse(m[0]).Err? then (this, Err(InvalidPublicKey))
      else
        var re := Parse(m[0]).value;
        var a := ReceiveE(re).Dh(ephemeral.value, re);
        var epoch, b := a.sym.Decrypted(m[1]), a.ReceiveSealed(m[1]);
        if epoch.Err? then (b, Err(epoch.error))
        else (b.(remoteEpoch := Some(epoch.value), progress := Message2Done), Ok(()))
    }

    function WriteXkMessage3(): (Hs, Result<Message>)
      requires Valid() && localEpoch.Some?
    {
      if Guard(Initiator, Message2Done).Some? then (this, Err(Guard(Initiator, Message2Done).value))
      else
        var a := SendSealed(KeyBytes(ownStatic.Public())).Dh(ownStatic, remoteEphemeral.value);
        (a.SendSealed(localEpoch.value).(progress := Complete),
         Ok([sym.Encrypted(KeyBytes(ownStatic.Public())), a.sym.Encrypted(localEpoch.value)]))
    }

    function ReadXkMessage3(m: Message): (Hs, Result<()>)
      requires Valid()
    {
      if Guard(Responder, Message2Done).Some? then (this, Err(Guard(Responder, Message2Done).value))
      else if !Cut(m, [SEALED_KEY, SEALED_EPOCH]) then (this, Err(MessageTooShort(73)))
      else
        var s, a := sym.Decrypted(m[0]), ReceiveSealed(m[0]);
        if s.Err? then (a, Err(s.error))
        else if Parse(s.value).Err? then (a, Err(InvalidPublicKey))
        else
          var rs := Parse(s.value).value;
          var b := a.(remoteStatic := Some(rs)).Dh(ephemeral.value, rs);
          var epoch, c := b.sym.Decrypted(m[1]), b.ReceiveSealed(m[1]);
          if epoch.Err? then (c, Err(epoch.error))
          else (c.(remoteEpoch := Some(epoch.value), progress := Complete), Ok(()))
    }

    /** The initiator sends with the first key of the split, the responder with the second. */
    function IntoSession(): Result<Session>
      requires progress == Complete ==> remoteStatic.Some?
    {
      if progress != Complete then Err(HandshakeNotComplete)
      else if role == Initiator then Ok(Session(role, First(sym.ck), Second(sym.ck), sym.h, remoteStatic.value))
      else Ok(Session(role, Second(sym.ck), First(sym.ck), sym.h, remoteStatic.value))
    }
  }

  function NewHs(pattern: Pattern, role: Role, ownStatic: Keypair, remoteStatic: Option<PublicKey>,
      responderKey: PublicKey): Hs {
    Hs(pattern, role, Initial, NewSym(pattern).MixHash(NormalizeForPremessage(responderKey)), ownStatic,
       None, remoteStatic, None, None, None)
  }

  class HandshakeState {
    const pattern: Pattern
    const role: Role
    var progress: Progress
    var symmetric: Sym
    const staticKeypair: Keypair
    var ephemeralKeypair: Option<Keypair>
    var remoteStatic: Option<PublicKey>
    var remoteEphemeral: Option<PublicKey>
    var localEpoch: Option<Data>
    var remoteEpoch: Option<Data>

    function View(): Hs
      reads this
    {
      Hs(pattern, role, progress, symmetric, staticKeypair, ephemeralKeypair, remoteStatic, remoteEphemeral,
         localEpoch, remoteEpoch)
    }

    constructor NewInitiator(pattern: Pattern, staticKeypair: Keypair, remoteStatic: PublicKey)
      ensures View() == NewHs(pattern, Initiator, staticKeypair, Some(remoteStatic), remoteStatic) && View().Valid()
    {
      this.pattern, role, progress, this.staticKeypair := pattern, Initiator, Initial, staticKeypair;
      ephemeralKeypair, this.remoteStatic, remoteEphemeral := None, Some(remoteStatic), None;
      localEpoch, remoteEpoch := None, None;
      symmetric := NewSym(pattern).MixHash(NormalizeForPremessage(remoteStatic));
    }

    constructor NewResponder(pattern: Pattern, staticKeypair: Keypair)
      ensures View() == NewHs(pattern, Responder, staticKeypair, None, staticKeypair.Public()) && View().Valid()
    {
      this.pattern, role, progress, this.staticKeypair := pattern, Responder, Initial, staticKeypair;
      ephemeralKeypair, remoteStatic, remoteEphemeral, localEpoch, remoteEpoch := None, None, None, None, None;
      symmetric := NewSym(pattern).MixHash(NormalizeForPremessage(staticKeypair.Public()));
    }

    method SetLocalEpoch(epoch: Data)
      requires View().Valid() && Len(epoch) == EPOCH_SIZE
      modifies this`localEpoch
      ensures View().Valid() && View() == old(View()).(localEpoch := Some(epoch))
    {
      localEpoch := Some(epoch);
    }

    /** Seal with the current cipher and hash the result. */
    method EncryptAndHash(plain: Data) returns (c: Data)
      modifies this`symmetric
      ensures symmetric == old(symmetric).EncryptAndHash(plain) && c == old(symmetric).Encrypted(plain)
    {
      c := symmetric.Encrypted(plain);
      if symmetric.key.Some? {
        symmetric := symmetric.(nonce := symmetric.nonce + 1);
      }
      symmetric := symmetric.MixHash(c);
    }

    method DecryptAndHash(c: Data) returns (plain: Result<Data>)
      modifies this`symmetric
      ensures symmetric == old(symmetric).DecryptAndHash(c) && plain == old(symmetric).Decrypted(c)
    {
      plain := symmetric.Decrypted(c);
      if symmetric.key.Some? {
        symmetric := symmetric.(nonce := symmetric.nonce + 1);
      }
      if plain.Err? {
        return;
      }
      symmetric := symmetric.MixHash(c);
    }

    method WriteMessage1(ephemeral: Keypair) returns (r: Result<Message>)
      requires View().Valid() && localEpoch.Some?
      modifies this
      ensures View().Valid() && (View(), r) == old(View()).WriteMessage1(ephemeral)
    {
      if role != Initiator {
        return Err(WrongRole(Initiator, role));
      }
      if progress != Initial {
        return Err(WrongState(Initial, progress));
      }
      ephemeralKeypair := Some(ephemeral);
      var message := [KeyBytes(ephemeral.Public())];
      symmetric := symmetric.MixHash(KeyBytes(ephemeral.Public()));
      symmetric := symmetric.MixKey(Ecdh(ephemeral, remoteStatic.value));
      var encryptedStatic := EncryptAndHash(KeyBytes(staticKeypair.Public()));
      message := message + [encryptedStatic];
      symmetric := symmetric.MixKey(Ecdh(staticKeypair, remoteStatic.value));
      var encryptedEpoch := EncryptAndHash(localEpoch.value);
      message := message + [encryptedEpoch];
      progress := Message1Done;
      assert message == [KeyBytes(ephemeral.Public()), encryptedStatic, encryptedEpoch];
      r := Ok(message);
    }

    method ReadMessage1(message: Message) returns (r: Result<()>)
      requires View().Valid()
      modifies this
      ensures View().Valid() && (View(), r) == old(View()).ReadMessage1(message)
    {
      if role != Responder {
        return Err(WrongRole(Responder, role));
      }
      if progress != Initial {
        return Err(WrongState(Initial, progress));
      }
      if !Cut(message, [PUBKEY_SIZE, SEALED_KEY, SEALED_EPOCH]) {
        return Err(MessageTooShort(106));
      }
      var re := Parse(message[0]);
      if re.Err? {
        return Err(re.error);
      }
      remoteEphemeral := Some(re.value);
      symmetric := symmetric.MixHash(message[0]);
      symmetric := symmetric.MixKey(Ecdh(staticKeypair, re.value));
      var decryptedStatic := DecryptAndHash(message[1]);
      if decryptedStatic.Err? {
        return Err(decryptedStatic.error);
      }
      var rs := Parse(decryptedStatic.value);
      if rs.Err? {
        return Err(rs.error);
      }
      remoteStatic := Some(rs.value);
      symmetric := symmetric.MixKey(Ecdh(staticKeypair, rs.value));
      var decryptedEpoch := DecryptAndHash(message[2]);
      if decryptedEpoch.Err? {
        return Err(decryptedEpoch.error);
      }
      remoteEpoch := Some(decryptedEpoch.value);
      progress := Message1Done;
      r := Ok(());
    }

    method WriteMessage2(ephemeral: Keypair) returns (r: Result<Message>)
      requires View().Valid() && localEpoch.Some?
      modifies this
      ensures View().Valid() && (View(), r) == old(View()).WriteMessage2(ephemeral)
    {
      if role != Responder {
        return Err(WrongRole(Responder, role));
      }
      if progress != Message1Done {
        return Err(WrongState(Message1Done, progress));
      }
      ephemeralKeypair := Some(ephemeral);
      var message := [KeyBytes(ephemeral.Public())];
      symmetric := symmetric.MixHash(KeyBytes(ephemeral.Public()));
      symmetric := symmetric.MixKey(Ecdh(ephemeral, remoteEphemeral.value));
      symmetric := symmetric.MixKey(Ecdh(staticKeypair, remoteEphemeral.value));
      var encryptedEpoch := EncryptAndHash(localEpoch.value);
      message := message + [encryptedEpoch];
      progress := Complete;
      assert message == [KeyBytes(ephemeral.Public()), encryptedEpoch];
      r := Ok(message);
    }

    method ReadMessage2(message: Message) returns (r: Result<()>)
      requires View().Valid()
      modifies this
      ensures View().Valid() && (View(), r) == old(View()).ReadMessage2(message)
    {
      if role != Initiator {
        return Err(WrongRole(Initiator, role));
      }
      if progress != Message1Done {
        return Err(WrongState(Message1Done, progress));
      }
      if !Cut(message, [PUBKEY_SIZE, SEALED_EPOCH]) {
        return Err(MessageTooShort(57));
      }
      var re := Parse(message[0]);
      if re.Err? {
        return Err(re.error);
      }
      remoteEphemeral := Some(re.value);
      symmetric := symmetric.MixHash(message[0]);
      symmetric := symmetric.MixKey(Ecdh(ephemeralKeypair.value, re.value));
      symmetric := symmetric.MixKey(Ecdh(ephemeralKeypair.value, remoteStatic.value));
      var decryptedEpoch := DecryptAndHash(message[1]);
      if decryptedEpoch.Err? {
        return Err(decryptedEpoch.error);
      }
      remoteEpoch := Some(decryptedEpoch.value);
      progress := Complete;
      r := Ok(());
    }

    method WriteXkMessage1(ephemeral: Keypair) returns (r: Result<Message>)
      requires View().Valid()
      modifies this
      ensures View().Valid() && (View(), r) == old(View()).WriteXkMessage1(ephemeral)
    {
      if role != Initiator {
        return Err(WrongRole(Initiator, role));
      }
      if progress != Initial {
        return Err(WrongState(Initial, progress));
      }
      ephemeralKeypair := Some(ephemeral);
      var message := [KeyBytes(ephemeral.Public())];
      symmetric := symmetric.MixHash(KeyBytes(ephemeral.Public()));
      symmetric := symmetric.MixKey(Ecdh(ephemeral, remoteStatic.value));
      progress := Message1Done;
      r := Ok(message);
    }

    method ReadXkMessage1(message: Message) returns (r: Result<()>)
      requires View().Valid()
      modifies this
      ensures View().Valid() && (View(), r) == old(View()).ReadXkMessage1(message)
    {
      if role != Responder {
        return Err(WrongRole(Responder, role));
      }
      if progress != Initial {
        return Err(WrongState(Initial, progress));
      }
      if !Cut(message, [PUBKEY_SIZE]) {
        return Err(MessageTooShort(33));
      }
      var re := Parse(message[0]);
      if re.Err? {
        return Err(re.error);
      }
      remoteEphemeral := Some(re.value);
      symmetric := symmetric.MixHash(message[0]);
      symmetric := symmetric.MixKey(Ecdh(staticKeypair, re.value));
      progress := Message1Done;
      r := Ok(());
    }

    method WriteXkMessage2(ephemeral: Keypair) returns (r: Result<Message>)
      requires View().Valid() && localEpoch.Some?
      modifies this
      ensures View().Valid() && (View(), r) == old(View()).WriteXkMessage2(ephemeral)
    {
      if role != Responder {
        return Err(WrongRole(Responder, role));
      }
      if progress != Message1Done {
        return Err(WrongState(Message1Done, progress));
      }
      ephemeralKeypair := Some(ephemeral);
      var message := [KeyBytes(ephemeral.Public())];
      symmetric := symmetric.MixHash(KeyBytes(ephemeral.Public()));
      symmetric := symmetric.MixKey(Ecdh(ephemeral, remoteEphemeral.value));
      var encryptedEpoch := EncryptAndHash(localEpoch.value);
      message := message + [encryptedEpoch];
      progress := Message2Done;
      assert message == [KeyBytes(ephemeral.Public()), encryptedEpoch];
      r := Ok(message);
    }

    method ReadXkMessage2(message: Message) returns (r: Result<()>)
      requires View().Valid()
      modifies this
      ensures View().Valid() && (View(), r) == old(View()).ReadXkMessage2(message)
    {
      if role != Initiator {
        return Err(WrongRole(Initiator, role));
      }
      if progress != Message1Done {
        return Err(WrongState(Message1Done, progress));
      }
      if !Cut(message, [PUBKEY_SIZE, SEALED_EPOCH]) {
        return Err(MessageTooShort(57));
      }
      var re := Parse(message[0]);
      if re.Err? {
        return Err(re.error);
      }
      remoteEphemeral := Some(re.value);
      symmetric := symmetric.MixHash(message[0]);
      symmetric := symmetric.MixKey(Ecdh(ephemeralKeypair.value, re.value));
      var decryptedEpoch := DecryptAndHash(message[1]);
      if decryptedEpoch.Err? {
        return Err(decryptedEpoch.error);
      }
      remoteEpoch := Some(decryptedEpoch.value);
      progress := Message2Done;
      r := Ok(());
    }

    method WriteXkMessage3() returns (r: Result<Message>)
      requires View().Valid() && localEpoch.Some?
      modifies this
      ensures View().Valid() && (View(), r) == old(View()).WriteXkMessage3()
    {
      if role != Initiator {
        return Err(WrongRole(Initiator, role));
      }
      if progress != Message2Done {
        return Err(WrongState(Message2Done, progress));
      }
      var encryptedStatic := EncryptAndHash(KeyBytes(staticKeypair.Public()));
      var message := [encryptedStatic];
      symmetric := symmetric.MixKey(Ecdh(staticKeypair, remoteEphemeral.value));
      var encryptedEpoch := EncryptAndHash(localEpoch.value);
      message := message + [encryptedEpoch];
      progress := Complete;
      assert message == [encryptedStatic, encryptedEpoch];
      r := Ok(message);
    }

    method ReadXkMessage3(message: Message) returns (r: Result<()>)
      requires View().Valid()
      modifies this
      ensures View().Valid() && (View(), r) == old(View()).ReadXkMessage3(message)
    {
      if role != Responder {
        return Err(WrongRole(Responder, role));
      }
      if progress != Message2Done {
        return Err(WrongState(Message2Done, progress));
      }
      if !Cut(message, [SEALED_KEY, SEALED_EPOCH]) {
        return Err(MessageTooShort(73));
      }
      var decryptedStatic := DecryptAndHash(message[0]);
      if decryptedStatic.Err? {
        return Err(decryptedStatic.error);
      }
      var rs := Parse(decryptedStatic.value);
      if rs.Err? {
        return Err(rs.error);
      }
      remoteStatic := Some(rs.value);
      symmetric := symmetric.MixKey(Ecdh(ephemeralKeypair.value, rs.value));
      var decryptedEpoch := DecryptAndHash(message[1]);
      if decryptedEpoch.Err? {
        return Err(decryptedEpoch.error);
      }
      remoteEpoch := Some(decryptedEpoch.value);
      progress := Complete;
      r := Ok(());
    }

    method IntoSession() returns (r: Result<Session>)
      requires progress == Complete ==> remoteStatic.Some?
      ensures r == View().IntoSession()
    {
      if progress != Complete {
        return Err(HandshakeNotComplete);
      }
      var c1, c2 := First(symmetric.ck), Second(symmetric.ck);
      var sendCipher, recvCipher := if role == Initiator then c1 else c2, if role == Initiator then c2 else c1;
      r := Ok(Session(role, sendCipher, recvCipher, symmetric.h, remoteStatic.value));
    }
  }
}
