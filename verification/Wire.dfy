/**
  The cleartext headers of mesh frames and session messages, the handshake packets and the inner headers:
  parsers and builders that undo each other.
*/
module Wire {
  import opened Basics
  import opened Bytes

  const ESTABLISHED_HEADER_SIZE := 16
  const ENCRYPTED_MIN_SIZE := 32
  const HANDSHAKE_MSG1_SIZE := 106
  const HANDSHAKE_MSG2_SIZE := 57
  const MSG1_WIRE_SIZE := 114
  const MSG2_WIRE_SIZE := 69
  const FSP_HEADER_SIZE := 12
  const FSP_ENCRYPTED_MIN_SIZE := 28

  const PHASE_ESTABLISHED: u8 := 0
  const PHASE_MSG1: u8 := 1
  const PHASE_MSG2: u8 := 2

  function VerPhaseByte(version: u8, phase: u8): byte {
    (version % 16) * 16 + phase % 16
  }

  /** The version in the high half of the byte, the phase in the low one. */
  lemma VersionAndPhase(version: u8, phase: u8)
    requires version < 16 && phase < 16
    ensures VerPhaseByte(version, phase) / 16 == version && VerPhaseByte(version, phase) % 16 == phase
  {}

  // ----- established frames of the mesh layer -----

  datatype EncryptedHeader = EncryptedHeader(flags: u8, payloadLen: u16, receiverIdx: u32, counter: u64,
                                             headerBytes: seq<byte>)

  function ParseEncrypted(data: seq<byte>): Option<EncryptedHeader> {
    if |data| < ENCRYPTED_MIN_SIZE then None
    else if data[0] / 16 != 0 || data[0] % 16 != PHASE_ESTABLISHED then None
    else
      PowersOf256();
      Some(EncryptedHeader(data[1], Field(data, 2, 2), Field(data, 4, 4), Field(data, 8, 8),
                           data[..ESTABLISHED_HEADER_SIZE]))
  }

  function EstablishedHeader(receiverIdx: u32, counter: u64, flags: u8, payloadLen: u16): seq<byte> {
    Pack(Widths5(4, 8), [VerPhaseByte(0, PHASE_ESTABLISHED), flags, payloadLen, receiverIdx, counter])
  }

  /** The header filled into a buffer piece by piece. */
  method BuildEstablishedHeader(receiverIdx: u32, counter: u64, flags: u8, payloadLen: u16)
      returns (header: array<byte>)
    ensures fresh(header) && header[..] == EstablishedHeader(receiverIdx, counter, flags, payloadLen)
  {
    hide Le, Pack, Size, VerPhaseByte;
    header := new byte[ESTABLISHED_HEADER_SIZE](_ => 0);
    header[0] := VerPhaseByte(0, PHASE_ESTABLISHED);
    header[1] := flags;
    CopyFromSlice(header, 2, Le(2, payloadLen));
    assert header[..4] == [header[0]] + [flags] + Le(2, payloadLen);
    CopyFromSlice(header, 4, Le(4, receiverIdx));
    assert header[..8] == header[..4] + Le(4, receiverIdx);
    CopyFromSlice(header, 8, Le(8, counter));
    assert header[..] == header[..8] + Le(8, counter);
    Pack5(4, 8, VerPhaseByte(0, PHASE_ESTABLISHED), flags, payloadLen, receiverIdx, counter);
  }

  method CopyFromSlice(a: array<byte>, at: nat, b: seq<byte>)
    requires at + |b| <= a.Length
    modifies a
    ensures a[..] == old(a[..at]) + b + old(a[at + |b|..])
  {
    for i := 0 to |b|
      invariant a[..] == old(a[..at]) + b[..i] + old(a[at + i..])
    {
      a[at + i] := b[i];
      assert b[..i + 1] == b[..i] + [b[i]];
    }
  }

  lemma OneByte(v: nat)
    requires v < 256
    ensures Le(1, v) == [v]
  {
    assert Le(0, v / 256) == [];
  }

  lemma OneByteField(data: seq<byte>, i: nat)
    requires i < |data|
    ensures Field(data, i, 1) == data[i]
  {}

  /** All headers start with two bytes and a 16-bit length. */
  function Widths4(w: nat): seq<nat> {
    [1, 1, 2, w]
  }

  function Widths5(w: nat, x: nat): seq<nat> {
    [1, 1, 2, w, x]
  }

  lemma Pack4(w: nat, a: byte, b: byte, c: nat, d: nat)
    ensures Pack(Widths4(w), [a, b, c, d]) == [a] + [b] + Le(2, c) + Le(w, d)
  {
    hide Le, Pack, Size;
    OneByte(a);
    OneByte(b);
    PackNothing();
    PackAppend([], [], 1, a);
    PackAppend([1], [a], 1, b);
    PackAppend([1, 1], [a, b], 2, c);
    PackAppend([1, 1, 2], [a, b, c], w, d);
    assert [] + [1] == [1] && [1] + [1] == [1, 1] && [1, 1] + [2] == [1, 1, 2] && [1, 1, 2] + [w] == Widths4(w);
    assert [] + [a] == [a] && [a] + [b] == [a, b] && [a, b] + [c] == [a, b, c] && [a, b, c] + [d] == [a, b, c, d];
  }

  lemma PackNothing()
    ensures Pack([], []) == []
  {}

  lemma Pack5(w: nat, x: nat, a: byte, b: byte, c: nat, d: nat, e: nat)
    ensures Pack(Widths5(w, x), [a, b, c, d, e]) == [a] + [b] + Le(2, c) + Le(w, d) + Le(x, e)
  {
    hide Le, Pack, Size;
    Pack4(w, a, b, c, d);
    PackAppend(Widths4(w), [a, b, c, d], x, e);
    assert Widths4(w) + [x] == Widths5(w, x);
    assert [a, b, c, d] + [e] == [a, b, c, d, e];
  }

  lemma FirstOffset(widths: seq<nat>)
    requires widths != []
    ensures Offset(widths, 0) == 0
  {}

  lemma Fields4(w: nat, data: seq<byte>)
    requires |data| >= 4 + w
    ensures Size(Widths4(w)) == 4 + w
    ensures Unpack(Widths4(w), data) == [data[0], data[1], Field(data, 2, 2), Field(data, 4, w)]
  {
    hide Field, Pack, Unpack, Offset, Size, Le;
    var ws := Widths4(w);
    FirstOffset(ws);
    OffsetStep(ws, 0); OffsetStep(ws, 1); OffsetStep(ws, 2);
    Pack4(w, 0, 0, 0, 0);
    FieldIs(ws, data, 0); FieldIs(ws, data, 1); FieldIs(ws, data, 2); FieldIs(ws, data, 3);
    OneByteField(data, 0);
    OneByteField(data, 1);
  }

  lemma Fields5(w: nat, x: nat, data: seq<byte>)
    requires |data| >= 4 + w + x
    ensures Size(Widths5(w, x)) == 4 + w + x
    ensures Unpack(Widths5(w, x), data)
            == [data[0], data[1], Field(data, 2, 2), Field(data, 4, w), Field(data, 4 + w, x)]
  {
    hide Field, Pack, Unpack, Offset, Size, Le;
    var ws := Widths5(w, x);
    FirstOffset(ws);
    OffsetStep(ws, 0); OffsetStep(ws, 1); OffsetStep(ws, 2); OffsetStep(ws, 3);
    Pack5(w, x, 0, 0, 0, 0, 0);
    FieldIs(ws, data, 0); FieldIs(ws, data, 1); FieldIs(ws, data, 2); FieldIs(ws, data, 3); FieldIs(ws, data, 4);
    OneByteField(data, 0);
    OneByteField(data, 1);
  }

  /** What a parser reads from a built header, whatever follows it. */
  lemma ReadBack4(w: nat, a: byte, b: byte, c: u16, d: nat, rest: seq<byte>)
    requires d < Pow256(w)
    ensures var header := Pack(Widths4(w), [a, b, c, d]); var data := header + rest;
            |header| == 4 + w && data[..4 + w] == header && data[4 + w..] == rest
            && data[0] == a && data[1] == b && Field(data, 2, 2) == c && Field(data, 4, w) == d
  {
    hide Pack, Unpack, Field, Le, Pow256, Size;
    var header := Pack(Widths4(w), [a, b, c, d]);
    var data := header + rest;
    PowersOf256();
    UnpackOfPack(Widths4(w), [a, b, c, d], rest);
    Pack4(w, a, b, c, d);
    Fields4(w, data);
    var got := Unpack(Widths4(w), data);
    assert got[0] == data[0] && got[1] == data[1] && got[2] == Field(data, 2, 2) && got[3] == Field(data, 4, w);
  }

  lemma ReadBack5(w: nat, x: nat, a: byte, b: byte, c: u16, d: nat, e: nat, rest: seq<byte>)
    requires d < Pow256(w) && e < Pow256(x)
    ensures var header := Pack(Widths5(w, x), [a, b, c, d, e]); var data := header + rest;
            |header| == 4 + w + x && data[..4 + w + x] == header && data[4 + w + x..] == rest
            && data[0] == a && data[1] == b && Field(data, 2, 2) == c && Field(data, 4, w) == d
            && Field(data, 4 + w, x) == e
  {
    hide Pack, Unpack, Field, Le, Pow256, Size;
    var header := Pack(Widths5(w, x), [a, b, c, d, e]);
    var data := header + rest;
    PowersOf256();
    UnpackOfPack(Widths5(w, x), [a, b, c, d, e], rest);
    Pack5(w, x, a, b, c, d, e);
    Fields5(w, x, data);
    var got := Unpack(Widths5(w, x), data);
    assert got[0] == data[0] && got[1] == data[1] && got[2] == Field(data, 2, 2) && got[3] == Field(data, 4, w)
           && got[4] == Field(data, 4 + w, x);
  }

  /** Parsing what was built returns every field, for all values, given room for the authentication tag. */
  lemma ParseOfEstablished(receiverIdx: u32, counter: u64, flags: u8, payloadLen: u16, ciphertext: seq<byte>)
    ensures var header := EstablishedHeader(receiverIdx, counter, flags, payloadLen);
            ParseEncrypted(header + ciphertext)
            == if |ciphertext| >= 16 then Some(EncryptedHeader(flags, payloadLen, receiverIdx, counter, header))
               else None
  {
    PowersOf256();
    ReadBack5(4, 8, VerPhaseByte(0, PHASE_ESTABLISHED), flags, payloadLen, receiverIdx, counter, ciphertext);
  }

  /** Where each field of an established header is: version and phase in one byte, both zero, then the flags, the
      length of the payload, the receiver and the counter. */
  lemma EstablishedLayout(receiverIdx: u32, counter: u64, flags: u8, payloadLen: u16)
    ensures var h := EstablishedHeader(receiverIdx, counter, flags, payloadLen);
            && |h| == 16 && h[0] == 0 && h[1] == flags && Field(h, 2, 2) == payloadLen
            && Field(h, 4, 4) == receiverIdx && Field(h, 8, 8) == counter
  {
    hide Pack, Field;
    PowersOf256();
    ReadBack5(4, 8, VerPhaseByte(0, PHASE_ESTABLISHED), flags, payloadLen, receiverIdx, counter, []);
    var h := EstablishedHeader(receiverIdx, counter, flags, payloadLen);
    assert h + [] == h;
  }

  /** Building from the parsed fields reproduces the header of every packet the parser accepts. */
  lemma EstablishedOfParse(data: seq<byte>)
    requires ParseEncrypted(data).Some?
    ensures var h := ParseEncrypted(data).value;
            EstablishedHeader(h.receiverIdx, h.counter, h.flags, h.payloadLen) == h.headerBytes
            == data[..ESTABLISHED_HEADER_SIZE]
  {
    hide Pack, Unpack, Field, Le, Size, Pow256;
    Fields5(4, 8, data);
    PackOfUnpack(Widths5(4, 8), data);
  }

  // ----- handshake packets of the mesh layer -----

  datatype Msg1Header = Msg1Header(senderIdx: u32, noiseMsg1Offset: nat)

  datatype Msg2Header = Msg2Header(senderIdx: u32, receiverIdx: u32, noiseMsg2Offset: nat)

  function ParseMsg1(data: seq<byte>): Option<Msg1Header> {
    if |data| != MSG1_WIRE_SIZE then None
    else if data[0] / 16 != 0 || data[0] % 16 != PHASE_MSG1 then None
    else if data[1] != 0 then None
    else
      PowersOf256();
      Some(Msg1Header(Field(data, 4, 4), 8))
  }

  function ParseMsg2(data: seq<byte>): Option<Msg2Header> {
    if |data| != MSG2_WIRE_SIZE then None
    else if data[0] / 16 != 0 || data[0] % 16 != PHASE_MSG2 then None
    else if data[1] != 0 then None
    else
      PowersOf256();
      Some(Msg2Header(Field(data, 4, 4), Field(data, 8, 4), 12))
  }

  function Msg1(senderIdx: u32, noiseMsg1: seq<byte>): seq<byte> {
    Pack(Widths4(4), [VerPhaseByte(0, PHASE_MSG1), 0, (4 + |noiseMsg1|) % 65536, senderIdx]) + noiseMsg1
  }

  function Msg2(senderIdx: u32, receiverIdx: u32, noiseMsg2: seq<byte>): seq<byte> {
    Pack(Widths5(4, 4), [VerPhaseByte(0, PHASE_MSG2), 0, (8 + |noiseMsg2|) % 65536, senderIdx, receiverIdx]) + noiseMsg2
  }

  method BuildMsg1(senderIdx: u32, noiseMsg1: seq<byte>) returns (packet: seq<byte>)
    ensures packet == Msg1(senderIdx, noiseMsg1)
  {
    hide Le, Pack, Size;
    var payloadLen := (4 + |noiseMsg1|) % 65536;
    packet := [VerPhaseByte(0, PHASE_MSG1)];
    packet := packet + [0];
    packet := packet + Le(2, payloadLen);
    packet := packet + Le(4, senderIdx);
    Pack4(4, VerPhaseByte(0, PHASE_MSG1), 0, payloadLen, senderIdx);
    packet := packet + noiseMsg1;
  }

  method BuildMsg2(senderIdx: u32, receiverIdx: u32, noiseMsg2: seq<byte>) returns (packet: seq<byte>)
    ensures packet == Msg2(senderIdx, receiverIdx, noiseMsg2)
  {
    hide Le, Pack, Size;
    var payloadLen := (8 + |noiseMsg2|) % 65536;
    packet := [VerPhaseByte(0, PHASE_MSG2)];
    packet := packet + [0];
    packet := packet + Le(2, payloadLen);
    packet := packet + Le(4, senderIdx);
    packet := packet + Le(4, receiverIdx);
    Pack5(4, 4, VerPhaseByte(0, PHASE_MSG2), 0, payloadLen, senderIdx, receiverIdx);
    packet := packet + noiseMsg2;
  }

  /** A built packet parses exactly when the Noise message has its proper size, and gives back both parts. */
  lemma ParseOfMsg1(senderIdx: u32, noiseMsg1: seq<byte>)
    ensures var data := Msg1(senderIdx, noiseMsg1);
            && ParseMsg1(data) == (if |noiseMsg1| == HANDSHAKE_MSG1_SIZE then Some(Msg1Header(senderIdx, 8)) else None)
            && data[8..] == noiseMsg1
  {
    PowersOf256();
    ReadBack4(4, VerPhaseByte(0, PHASE_MSG1), 0, (4 + |noiseMsg1|) % 65536, senderIdx, noiseMsg1);
  }

  lemma ParseOfMsg2(senderIdx: u32, receiverIdx: u32, noiseMsg2: seq<byte>)
    ensures var data := Msg2(senderIdx, receiverIdx, noiseMsg2);
            && ParseMsg2(data)
               == (if |noiseMsg2| == HANDSHAKE_MSG2_SIZE then Some(Msg2Header(senderIdx, receiverIdx, 12)) else None)
            && data[12..] == noiseMsg2
  {
    PowersOf256();
    ReadBack5(4, 4, VerPhaseByte(0, PHASE_MSG2), 0, (8 + |noiseMsg2|) % 65536, senderIdx, receiverIdx, noiseMsg2);
  }

  /** Where each field of the handshake packets is: the phase, a zero, the length of what follows the first four
      bytes in sixteen bits, one or two indices and the Noise message. */
  lemma Msg1Layout(senderIdx: u32, noise: seq<byte>)
    ensures var m := Msg1(senderIdx, noise);
            && |m| == 8 + |noise| && m[0] == 1 && m[1] == 0 && Field(m, 2, 2) == (|m| - 4) % 0x1_0000
            && Field(m, 4, 4) == senderIdx && m[8..] == noise
  {
    hide Pack, Field, Size, Pow256;
    PowersOf256();
    assert VerPhaseByte(0, PHASE_MSG1) == 1;
    hide VerPhaseByte, Widths4;
    var length := (4 + |noise|) % 65536;
    ReadBack4(4, 1, 0, length, senderIdx, noise);
    assert Msg1(senderIdx, noise) == Pack(Widths4(4), [1, 0, length, senderIdx]) + noise;
    assert |Msg1(senderIdx, noise)| - 4 == 4 + |noise|;
  }

  lemma Msg2Layout(senderIdx: u32, receiverIdx: u32, noise: seq<byte>)
    ensures var m := Msg2(senderIdx, receiverIdx, noise);
            && |m| == 12 + |noise| && m[0] == 2 && m[1] == 0 && Field(m, 2, 2) == (|m| - 4) % 0x1_0000
            && Field(m, 4, 4) == senderIdx && Field(m, 8, 4) == receiverIdx && m[12..] == noise
  {
    hide Pack, Field, Size;
    PowersOf256();
    var length := (8 + |noise|) % 65536;
    ReadBack5(4, 4, VerPhaseByte(0, PHASE_MSG2), 0, length, senderIdx, receiverIdx, noise);
    assert |Msg2(senderIdx, receiverIdx, noise)| - 4 == 8 + |noise|;
  }

  /** The parsers ignore the length field: building again reproduces an accepted packet exactly when that
      field held the length the builder writes. */
  lemma Msg1OfParse(data: seq<byte>)
    requires ParseMsg1(data).Some?
    ensures Msg1(ParseMsg1(data).value.senderIdx, data[8..]) == data <==> Field(data, 2, 2) == 4 + HANDSHAKE_MSG1_SIZE
  {
    hide Pack, Unpack, Field, Le, Size, Pow256;
    PowersOf256();
    var idx := ParseMsg1(data).value.senderIdx;
    ReadBack4(4, VerPhaseByte(0, PHASE_MSG1), 0, 4 + HANDSHAKE_MSG1_SIZE, idx, data[8..]);
    Fields4(4, data);
    PackOfUnpack(Widths4(4), data);
    assert data[0] == VerPhaseByte(0, PHASE_MSG1);
    assert data == data[..8] + data[8..];
  }

  lemma Msg2OfParse(data: seq<byte>)
    requires ParseMsg2(data).Some?
    ensures var h := ParseMsg2(data).value;
            Msg2(h.senderIdx, h.receiverIdx, data[12..]) == data <==> Field(data, 2, 2) == 8 + HANDSHAKE_MSG2_SIZE
  {
    hide Pack, Unpack, Field, Le, Size, Pow256;
    PowersOf256();
    var h := ParseMsg2(data).value;
    ReadBack5(4, 4, VerPhaseByte(0, PHASE_MSG2), 0, 8 + HANDSHAKE_MSG2_SIZE, h.senderIdx, h.receiverIdx, data[12..]);
    Fields5(4, 4, data);
    PackOfUnpack(Widths5(4, 4), data);
    assert data[0] == VerPhaseByte(0, PHASE_MSG2);
    assert data == data[..12] + data[12..];
  }

  /** No packet is taken by two of the three parsers. */
  lemma ParsersDisjoint(data: seq<byte>)
    ensures !(ParseEncrypted(data).Some? && ParseMsg1(data).Some?)
    ensures !(ParseEncrypted(data).Some? && ParseMsg2(data).Some?)
    ensures !(ParseMsg1(data).Some? && ParseMsg2(data).Some?)
  {}

  // ----- session messages -----

  datatype FspHeader = FspHeader(flags: u8, payloadLen: u16, counter: u64, headerBytes: seq<byte>)

  /** The flag of plaintext messages. */
  predicate IsUnencrypted(flags: u8) {
    (flags / 4) % 2 == 1
  }

  function ParseFsp(data: seq<byte>): Option<FspHeader> {
    if |data| < FSP_ENCRYPTED_MIN_SIZE then None
    else if data[0] / 16 != 0 || data[0] % 16 != PHASE_ESTABLISHED then None
    else if IsUnencrypted(data[1]) then None
    else
      PowersOf256();
      Some(FspHeader(data[1], Field(data, 2, 2), Field(data, 4, 8), data[..FSP_HEADER_SIZE]))
  }

  function FspHeaderBytes(counter: u64, flags: u8, payloadLen: u16): seq<byte> {
    Pack(Widths4(8), [VerPhaseByte(0, PHASE_ESTABLISHED), flags, payloadLen, counter])
  }

  method BuildFspHeader(counter: u64, flags: u8, payloadLen: u16) returns (header: array<byte>)
    ensures fresh(header) && header[..] == FspHeaderBytes(counter, flags, payloadLen)
  {
    hide Le, Pack, Size, VerPhaseByte;
    header := new byte[FSP_HEADER_SIZE](_ => 0);
    header[0] := VerPhaseByte(0, PHASE_ESTABLISHED);
    header[1] := flags;
    CopyFromSlice(header, 2, Le(2, payloadLen));
    assert header[..4] == [header[0]] + [flags] + Le(2, payloadLen);
    CopyFromSlice(header, 4, Le(8, counter));
    assert header[..] == header[..4] + Le(8, counter);
    assert header[0] == VerPhaseByte(0, PHASE_ESTABLISHED);
    Pack4(8, VerPhaseByte(0, PHASE_ESTABLISHED), flags, payloadLen, counter);
  }

  /** A built header parses back exactly when it is not flagged as plaintext, which the third lowest bit does, and
      the tag has room. */
  lemma ParseOfFsp(counter: u64, flags: u8, payloadLen: u16, ciphertext: seq<byte>)
    ensures var header := FspHeaderBytes(counter, flags, payloadLen);
            ParseFsp(header + ciphertext)
            == if |ciphertext| >= 16 && flags % 8 < 4 then Some(FspHeader(flags, payloadLen, counter, header))
               else None
  {
    PowersOf256();
    ReadBack4(8, VerPhaseByte(0, PHASE_ESTABLISHED), flags, payloadLen, counter, ciphertext);
  }

  /** Where each field of a session header is. */
  lemma FspLayout(counter: u64, flags: u8, payloadLen: u16)
    ensures var h := FspHeaderBytes(counter, flags, payloadLen);
            && |h| == 12 && h[0] == 0 && h[1] == flags && Field(h, 2, 2) == payloadLen && Field(h, 4, 8) == counter
  {
    hide Pack, Field;
    PowersOf256();
    ReadBack4(8, VerPhaseByte(0, PHASE_ESTABLISHED), flags, payloadLen, counter, []);
    var h := FspHeaderBytes(counter, flags, payloadLen);
    assert h + [] == h;
  }

  lemma FspOfParse(data: seq<byte>)
    requires ParseFsp(data).Some?
    ensures var h := ParseFsp(data).value;
            FspHeaderBytes(h.counter, h.flags, h.payloadLen) == h.headerBytes == data[..FSP_HEADER_SIZE]
  {
    hide Pack, Unpack, Field, Le, Size, Pow256;
    Fields4(8, data);
    PackOfUnpack(Widths4(8), data);
  }

  // ----- inner headers -----

  function Prepend(timestampMs: u32, plaintext: seq<byte>): seq<byte> {
    Le(4, timestampMs) + plaintext
  }

  function Strip(plaintext: seq<byte>): Option<(u32, seq<byte>)> {
    if |plaintext| < 5 then None
    else
      PowersOf256();
      Some((Field(plaintext, 0, 4), plaintext[4..]))
  }

  /** The mesh layer counts the message type into its inner header: stripping undoes prepending exactly for
      messages that have one, and prepending undoes stripping always. */
  lemma StripOfPrepend(timestampMs: u32, plaintext: seq<byte>)
    ensures Strip(Prepend(timestampMs, plaintext)) == if plaintext != [] then Some((timestampMs, plaintext)) else None
  {
    PowersOf256();
    FromLeOfLe(4, timestampMs);
    SplitAt(Le(4, timestampMs), plaintext);
    assert Prepend(timestampMs, plaintext)[0..4] == Le(4, timestampMs);
  }

  lemma PrependOfStrip(data: seq<byte>)
    requires Strip(data).Some?
    ensures Prepend(Strip(data).value.0, Strip(data).value.1) == data
  {
    LeOfFromLe(data[0..4]);
    assert data == data[0..4] + data[4..];
  }

  function FspPrepend(timestampMs: u32, msgType: u8, innerFlags: u8, payload: seq<byte>): seq<byte> {
    Le(4, timestampMs) + [msgType] + [innerFlags] + payload
  }

  function FspStrip(plaintext: seq<byte>): Option<(u32, u8, u8, seq<byte>)> {
    if |plaintext| < 6 then None
    else
      PowersOf256();
      Some((Field(plaintext, 0, 4), plaintext[4], plaintext[5], plaintext[6..]))
  }

  /** Where each field of the inner headers is. */
  lemma InnerLayout(timestampMs: u32, msgType: u8, innerFlags: u8, payload: seq<byte>)
    ensures var p := Prepend(timestampMs, payload);
            |p| == 4 + |payload| && Field(p, 0, 4) == timestampMs && p[4..] == payload
    ensures var p := FspPrepend(timestampMs, msgType, innerFlags, payload);
            && |p| == 6 + |payload| && Field(p, 0, 4) == timestampMs && p[4] == msgType && p[5] == innerFlags
            && p[6..] == payload
  {
    PowersOf256();
    FromLeOfLe(4, timestampMs);
    assert Prepend(timestampMs, payload)[0..4] == Le(4, timestampMs);
    assert FspPrepend(timestampMs, msgType, innerFlags, payload)[0..4] == Le(4, timestampMs);
  }

  lemma FspStripOfPrepend(timestampMs: u32, msgType: u8, innerFlags: u8, payload: seq<byte>)
    ensures FspStrip(FspPrepend(timestampMs, msgType, innerFlags, payload))
            == Some((timestampMs, msgType, innerFlags, payload))
  {
    PowersOf256();
    FromLeOfLe(4, timestampMs);
    var data := FspPrepend(timestampMs, msgType, innerFlags, payload);
    assert data[0..4] == Le(4, timestampMs) && data[6..] == payload;
  }

  lemma FspPrependOfStrip(data: seq<byte>)
    requires FspStrip(data).Some?
    ensures var (ts, ty, fl, rest) := FspStrip(data).value; FspPrepend(ts, ty, fl, rest) == data
  {
    LeOfFromLe(data[0..4]);
    assert data == data[0..4] + [data[4]] + [data[5]] + data[6..];
  }
}
