/**
  The cryptography of the handshakes as free symbols: keys, hashes and ciphertexts are equal only when built
  alike. The one law is that of the Diffie-Hellman function, which commutes and ignores the parity of the
  public key.
*/
module NoiseSymbols {
  import opened Basics

  datatype NoiseError =
    | HandshakeNotComplete
    | WrongRole(expectedRole: Role, gotRole: Role)
    | WrongState(expected: Progress, got: Progress)
    | InvalidPublicKey
    | DecryptionFailed
    | MessageTooShort(size: nat)

  datatype Result<T> = Ok(value: T) | Err(error: NoiseError)

  datatype Role = Initiator | Responder

  datatype Pattern = Ik | Xk

  datatype Progress = Initial | Message1Done | Message2Done | Complete

  /** A point up to sign, and the sign. */
  datatype PublicKey = PublicKey(x: nat, odd: bool)

  /** A secret key, known by the point it generates. */
  datatype Keypair = Keypair(x: nat, odd: bool) {
    function Public(): PublicKey {
      PublicKey(x, odd)
    }
  }

  datatype Shared = Shared(a: nat, b: nat)

  /** The x-coordinate of the product, hashed. */
  function Ecdh(secret: Keypair, their: PublicKey): Shared {
    if secret.x <= their.x then Shared(secret.x, their.x) else Shared(their.x, secret.x)
  }

  /** Two computations agree exactly if the same two points take part, whoever holds which secret and whatever
      the signs. */
  lemma EcdhAgreesIff(a: Keypair, their: PublicKey, b: Keypair, other: PublicKey)
    ensures Ecdh(a, their) == Ecdh(b, other) <==> {a.x, their.x} == {b.x, other.x}
  {}

  /** The chaining key: first output of the key derivation. */
  datatype Chain = Start(pattern: Pattern) | Mixed(ck: Chain, input: Shared)

  /** A cipher key: second output while mixing, both outputs when splitting. */
  datatype Key = Derived(ck: Chain, input: Shared) | First(ck: Chain) | Second(ck: Chain)

  /** Bytes on the wire: a serialized key, an epoch, a sealed plaintext, or anything else of some length. */
  datatype Data = KeyBytes(key: PublicKey) | EpochBytes(n: nat) | Sealed(under: Key, nonce: nat, plain: Data)
                | OtherBytes(id: nat, length: nat)

  const PUBKEY_SIZE := 33
  const EPOCH_SIZE := 8
  const TAG_SIZE := 16

  function Len(d: Data): nat {
    match d
    case KeyBytes(_) => PUBKEY_SIZE
    case EpochBytes(_) => EPOCH_SIZE
    case Sealed(_, _, p) => Len(p) + TAG_SIZE
    case OtherBytes(_, n) => n
  }

  /** The handshake hash: the protocol name and then everything mixed in. */
  datatype Hash = Begin(pattern: Pattern) | Then(h: Hash, data: Data)

  function Parse(d: Data): Result<PublicKey> {
    if d.KeyBytes? then Ok(d.key) else Err(InvalidPublicKey)
  }

  /** The symmetric state; the cipher has no key at first. */
  datatype Sym = Sym(ck: Chain, h: Hash, key: Option<Key>, nonce: nat) {
    function MixHash(d: Data): Sym {
      this.(h := Then(h, d))
    }

    function MixKey(input: Shared): Sym {
      this.(ck := Mixed(ck, input), key := Some(Derived(ck, input)), nonce := 0)
    }

    function Encrypted(plain: Data): Data {
      if key.None? then plain else Sealed(key.value, nonce, plain)
    }

    function EncryptAndHash(plain: Data): Sym {
      this.(nonce := if key.None? then nonce else nonce + 1).MixHash(Encrypted(plain))
    }

    function Decrypted(c: Data): Result<Data> {
      if key.None? then Ok(c)
      else if c.Sealed? && c.under == key.value && c.nonce == nonce then Ok(c.plain)
      else Err(DecryptionFailed)
    }

    /** The nonce is used up even when decryption fails; the hash then stays. */
    function DecryptAndHash(c: Data): Sym {
      var used := this.(nonce := if key.None? then nonce else nonce + 1);
      if Decrypted(c).Ok? then used.MixHash(c) else used
    }
  }

  /** What opens is exactly what was sealed in the same state, and the two ends then stay in step. A failure uses
      up the nonce and changes nothing else. */
  lemma OpensIffSealed(s: Sym, c: Data, plain: Data)
    ensures s.Decrypted(c) == Ok(plain) <==> c == s.Encrypted(plain)
    ensures c == s.Encrypted(plain) ==> s.DecryptAndHash(c) == s.EncryptAndHash(plain)
    ensures s.Decrypted(c).Err? ==> s.Decrypted(c) == Err(DecryptionFailed) && s.key.Some?
                                    && s.DecryptAndHash(c) == s.(nonce := s.nonce + 1)
    ensures s.key.Some? ==> s.EncryptAndHash(plain).Encrypted(plain) != s.Encrypted(plain)
  {}

  function NewSym(pattern: Pattern): Sym {
    Sym(Start(pattern), Begin(pattern), None, 0)
  }

  /** A key as both sides hash it beforehand, whatever parity they know it with. */
  function NormalizeForPremessage(key: PublicKey): Data {
    KeyBytes(key.(odd := false))
  }

  /** What was mixed into a hash, in order. */
  function Transcript(h: Hash): seq<Data> {
    match h
    case Begin(_) => []
    case Then(g, d) => Transcript(g) + [d]
  }

  function PatternOf(h: Hash): Pattern {
    match h
    case Begin(p) => p
    case Then(g, _) => PatternOf(g)
  }

  /** Hashes are equal exactly when the protocol and all that was mixed in are equal. */
  lemma {:induction false} HashIsTranscript(a: Hash, b: Hash)
    ensures a == b <==> PatternOf(a) == PatternOf(b) && Transcript(a) == Transcript(b)
  {
    match (a, b) {
      case (Then(g, d), Then(k, e)) =>
        HashIsTranscript(g, k);
        if Transcript(a) == Transcript(b) {
          var n := |Transcript(g)|;
          assert |Transcript(k)| == n;
          assert Transcript(a)[..n] == Transcript(g) && Transcript(b)[..n] == Transcript(k);
          assert Transcript(a)[n] == d && Transcript(b)[n] == e;
        }
      case (Then(g, d), Begin(_)) =>
        assert |Transcript(a)| == |Transcript(g)| + 1;
      case (Begin(_), Then(g, d)) =>
        assert |Transcript(b)| == |Transcript(g)| + 1;
      case (Begin(_), Begin(_)) =>
    }
  }
}
