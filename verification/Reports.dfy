/**
  The two measurement reports as they travel: encoders that append field after field to a buffer, decoders
  that read at fixed offsets behind the type byte.
*/
module Reports {
  import opened Bytes

  datatype ProtocolError = MessageTooShort(expected: nat, got: nat)

  datatype Result<T> = Ok(value: T) | Err(error: ProtocolError)

  datatype SenderReport = SenderReport(intervalStartCounter: u64, intervalEndCounter: u64,
                                       intervalStartTimestamp: u32, intervalEndTimestamp: u32,
                                       intervalBytesSent: u32, cumulativePacketsSent: u64,
                                       cumulativeBytesSent: u64)

  const WIDTHS_SENDER: seq<nat> := [8, 8, 4, 4, 4, 8, 8]

  /** The fields in wire order. */
  function SenderValues(r: SenderReport): (v: seq<nat>)
    ensures |v| == |WIDTHS_SENDER|
  {
    [r.intervalStartCounter, r.intervalEndCounter, r.intervalStartTimestamp, r.intervalEndTimestamp,
     r.intervalBytesSent, r.cumulativePacketsSent, r.cumulativeBytesSent]
  }

  /** The type byte, three reserved bytes and the fields. */
  function EncodedSender(r: SenderReport): seq<byte> {
    [1, 0, 0, 0] + Pack(WIDTHS_SENDER, SenderValues(r))
  }

  method EncodeSender(r: SenderReport) returns (buf: seq<byte>)
    ensures buf == EncodedSender(r)
  {
    hide Le, Pack, Size, Buffer;
    ghost var v := SenderValues(r);
    buf := [1];
    buf := buf + [0, 0, 0];
    ghost var prefix := buf;
    Nothing(prefix, WIDTHS_SENDER, v);
    buf := buf + Le(8, r.intervalStartCounter);
    Put(prefix, WIDTHS_SENDER, v, 0);
    buf := buf + Le(8, r.intervalEndCounter);
    Put(prefix, WIDTHS_SENDER, v, 1);
    buf := buf + Le(4, r.intervalStartTimestamp);
    Put(prefix, WIDTHS_SENDER, v, 2);
    buf := buf + Le(4, r.intervalEndTimestamp);
    Put(prefix, WIDTHS_SENDER, v, 3);
    buf := buf + Le(4, r.intervalBytesSent);
    Put(prefix, WIDTHS_SENDER, v, 4);
    buf := buf + Le(8, r.cumulativePacketsSent);
    Put(prefix, WIDTHS_SENDER, v, 5);
    buf := buf + Le(8, r.cumulativeBytesSent);
    Put(prefix, WIDTHS_SENDER, v, 6);
    All(prefix, WIDTHS_SENDER, v);
  }

  /** Reads behind the type byte and the reserved bytes; what follows the fields is ignored. */
  function DecodeSender(payload: seq<byte>): Result<SenderReport> {
    if |payload| < 47 then Err(MessageTooShort(47, |payload|))
    else
      var p := payload[3..];
      PowersOf256();
      Ok(SenderReport(Field(p, 0, 8), Field(p, 8, 8), Field(p, 16, 4), Field(p, 20, 4), Field(p, 24, 4),
                      Field(p, 28, 8), Field(p, 36, 8)))
  }

  lemma SenderOffsets()
    ensures Size(WIDTHS_SENDER) == 44
    ensures Offset(WIDTHS_SENDER, 0) == 0 && Offset(WIDTHS_SENDER, 1) == 8 && Offset(WIDTHS_SENDER, 2) == 16
            && Offset(WIDTHS_SENDER, 3) == 20 && Offset(WIDTHS_SENDER, 4) == 24
            && Offset(WIDTHS_SENDER, 5) == 28 && Offset(WIDTHS_SENDER, 6) == 36
  {
    hide Offset, Size;
    StartOfFirst(WIDTHS_SENDER);
    OffsetStep(WIDTHS_SENDER, 0);
    OffsetStep(WIDTHS_SENDER, 1);
    OffsetStep(WIDTHS_SENDER, 2);
    OffsetStep(WIDTHS_SENDER, 3);
    OffsetStep(WIDTHS_SENDER, 4);
    OffsetStep(WIDTHS_SENDER, 5);
    EndOfLast(WIDTHS_SENDER);
  }

  /** What the fixed offsets read. */
  lemma SenderFields(p: seq<byte>)
    requires |p| >= 44
    ensures Size(WIDTHS_SENDER) == 44
    ensures var v := Unpack(WIDTHS_SENDER, p);
            v[0] == Field(p, 0, 8)
            && v[1] == Field(p, 8, 8)
            && v[2] == Field(p, 16, 4)
            && v[3] == Field(p, 20, 4)
            && v[4] == Field(p, 24, 4)
            && v[5] == Field(p, 28, 8)
            && v[6] == Field(p, 36, 8)
  {
    hide Field, Unpack, Offset, Size;
    SenderOffsets();
    FieldIs(WIDTHS_SENDER, p, 0);
    FieldIs(WIDTHS_SENDER, p, 1);
    FieldIs(WIDTHS_SENDER, p, 2);
    FieldIs(WIDTHS_SENDER, p, 3);
    FieldIs(WIDTHS_SENDER, p, 4);
    FieldIs(WIDTHS_SENDER, p, 5);
    FieldIs(WIDTHS_SENDER, p, 6);
  }

  lemma SenderFits(r: SenderReport)
    ensures Fits(WIDTHS_SENDER, SenderValues(r))
  {
    hide Pow256;
    PowersOf256();
  }

  /** Reading a packed report gives its fields. */
  lemma SenderReadBack(r: SenderReport, p: seq<byte>)
    requires p == Pack(WIDTHS_SENDER, SenderValues(r))
    ensures |p| == 44
    ensures var v := SenderValues(r);
            Field(p, 0, 8) == v[0]
            && Field(p, 8, 8) == v[1]
            && Field(p, 16, 4) == v[2]
            && Field(p, 20, 4) == v[3]
            && Field(p, 24, 4) == v[4]
            && Field(p, 28, 8) == v[5]
            && Field(p, 36, 8) == v[6]
  {
    hide Pack, Unpack, Field, Size, Fits, Offset, SenderValues;
    var v := SenderValues(r);
    SenderFits(r);
    UnpackOfPack(WIDTHS_SENDER, v, []);
    assert p + [] == p;
    SenderOffsets();
    SenderFields(p);
  }

  /** Decoding undoes encoding for every value of every field. */
  lemma DecodeSenderOfEncode(r: SenderReport)
    ensures DecodeSender(EncodedSender(r)[1..]) == Ok(r)
  {
    hide Pack, Field, Size;
    var p := Pack(WIDTHS_SENDER, SenderValues(r));
    SenderReadBack(r, p);
    assert EncodedSender(r)[1..] == [0, 0, 0] + p;
    assert EncodedSender(r)[1..][3..] == p;
  }

  /** Encoding undoes decoding up to the reserved bytes, which become zero, and trailing bytes, which go. */
  lemma EncodeSenderOfDecode(payload: seq<byte>)
    requires DecodeSender(payload).Ok?
    ensures EncodedSender(DecodeSender(payload).value) == [1, 0, 0, 0] + payload[3..47]
    ensures EncodedSender(DecodeSender(payload).value) == [1] + payload
            <==> |payload| == 47 && payload[..3] == [0, 0, 0]
  {
    hide Pack, Unpack, Field, Size, Le;
    var p := payload[3..];
    SenderFields(p);
    PackOfUnpack(WIDTHS_SENDER, p);
    assert SenderValues(DecodeSender(payload).value) == Unpack(WIDTHS_SENDER, p);
    assert p[..44] == payload[3..47];
    SameBehindType(1, payload, [0, 0, 0] + payload[3..47], 47);
  }

  /** Where each field of a sender report is: behind the type byte and three zeros. */
  lemma SenderLayout(r: SenderReport)
    ensures var e := EncodedSender(r);
            && |e| == 48 && e[..4] == [1, 0, 0, 0]
            && Field(e, 4, 8) == r.intervalStartCounter && Field(e, 12, 8) == r.intervalEndCounter
            && Field(e, 20, 4) == r.intervalStartTimestamp && Field(e, 24, 4) == r.intervalEndTimestamp
            && Field(e, 28, 4) == r.intervalBytesSent
            && Field(e, 32, 8) == r.cumulativePacketsSent && Field(e, 40, 8) == r.cumulativeBytesSent
  {
    hide Pack, Field, Size;
    var p, e := Pack(WIDTHS_SENDER, SenderValues(r)), EncodedSender(r);
    SenderReadBack(r, p);
    assert e[4..] == p;
    FieldBehind(e, p, 0, 8); FieldBehind(e, p, 8, 8); FieldBehind(e, p, 16, 4); FieldBehind(e, p, 20, 4);
    FieldBehind(e, p, 24, 4); FieldBehind(e, p, 28, 8); FieldBehind(e, p, 36, 8);
  }

  lemma FieldBehind(e: seq<byte>, p: seq<byte>, at: nat, w: nat)
    requires |e| >= 4 && e[4..] == p && at + w <= |p|
    ensures Field(e, 4 + at, w) == Field(p, at, w)
  {
    SliceShift(e, 4, at, at + w);
  }

  /** Shorter payloads are refused with the length they should have. */
  lemma ShortReports(payload: seq<byte>)
    ensures |payload| < 48 - 1 <==> DecodeSender(payload) == Err(MessageTooShort(48 - 1, |payload|))
    ensures |payload| < 68 - 1 <==> DecodeReceiver(payload) == Err(MessageTooShort(68 - 1, |payload|))
  {
    hide Field;
  }

  datatype ReceiverReport = ReceiverReport(highestCounter: u64, cumulativePacketsRecv: u64,
                                           cumulativeBytesRecv: u64, timestampEcho: u32, dwellTime: u16,
                                           maxBurstLoss: u16, meanBurstLoss: u16, jitter: u32, ecnCeCount: u32,
                                           owdTrend: i32, burstLossCount: u32, cumulativeReorderCount: u32,
                                           intervalPacketsRecv: u32, intervalBytesRecv: u32)

  const WIDTHS_RECEIVER: seq<nat> := [8, 8, 8, 4, 2, 2, 2, 2, 4, 4, 4, 4, 4, 4, 4]

  /** The fields in wire order. The eighth field is reserved. */
  function ReceiverValues(r: ReceiverReport): (v: seq<nat>)
    ensures |v| == |WIDTHS_RECEIVER|
  {
    [r.highestCounter, r.cumulativePacketsRecv, r.cumulativeBytesRecv, r.timestampEcho, r.dwellTime,
     r.maxBurstLoss, r.meanBurstLoss, 0, r.jitter, r.ecnCeCount, ToU32(r.owdTrend), r.burstLossCount,
     r.cumulativeReorderCount, r.intervalPacketsRecv, r.intervalBytesRecv]
  }

  /** The type byte, three reserved bytes and the fields. */
  function EncodedReceiver(r: ReceiverReport): seq<byte> {
    [2, 0, 0, 0] + Pack(WIDTHS_RECEIVER, ReceiverValues(r))
  }

  method EncodeReceiver(r: ReceiverReport) returns (buf: seq<byte>)
    ensures buf == EncodedReceiver(r)
  {
    hide Le, Pack, Size, Buffer;
    ghost var v := ReceiverValues(r);
    buf := [2];
    buf := buf + [0, 0, 0];
    ghost var prefix := buf;
    Nothing(prefix, WIDTHS_RECEIVER, v);
    buf := buf + Le(8, r.highestCounter);
    Put(prefix, WIDTHS_RECEIVER, v, 0);
    buf := buf + Le(8, r.cumulativePacketsRecv);
    Put(prefix, WIDTHS_RECEIVER, v, 1);
    buf := buf + Le(8, r.cumulativeBytesRecv);
    Put(prefix, WIDTHS_RECEIVER, v, 2);
    buf := buf + Le(4, r.timestampEcho);
    Put(prefix, WIDTHS_RECEIVER, v, 3);
    buf := buf + Le(2, r.dwellTime);
    Put(prefix, WIDTHS_RECEIVER, v, 4);
    buf := buf + Le(2, r.maxBurstLoss);
    Put(prefix, WIDTHS_RECEIVER, v, 5);
    buf := buf + Le(2, r.meanBurstLoss);
    Put(prefix, WIDTHS_RECEIVER, v, 6);
    TwoZeros();
    buf := buf + [0, 0];
    Put(prefix, WIDTHS_RECEIVER, v, 7);
    buf := buf + Le(4, r.jitter);
    Put(prefix, WIDTHS_RECEIVER, v, 8);
    buf := buf + Le(4, r.ecnCeCount);
    Put(prefix, WIDTHS_RECEIVER, v, 9);
    buf := buf + Le(4, ToU32(r.owdTrend));
    Put(prefix, WIDTHS_RECEIVER, v, 10);
    buf := buf + Le(4, r.burstLossCount);
    Put(prefix, WIDTHS_RECEIVER, v, 11);
    buf := buf + Le(4, r.cumulativeReorderCount);
    Put(prefix, WIDTHS_RECEIVER, v, 12);
    buf := buf + Le(4, r.intervalPacketsRecv);
    Put(prefix, WIDTHS_RECEIVER, v, 13);
    buf := buf + Le(4, r.intervalBytesRecv);
    Put(prefix, WIDTHS_RECEIVER, v, 14);
    All(prefix, WIDTHS_RECEIVER, v);
  }

  /** Reads behind the type byte and the reserved bytes; what follows the fields is ignored. */
  function DecodeReceiver(payload: seq<byte>): Result<ReceiverReport> {
    if |payload| < 67 then Err(MessageTooShort(67, |payload|))
    else
      var p := payload[3..];
      PowersOf256();
      Ok(ReceiverReport(Field(p, 0, 8), Field(p, 8, 8), Field(p, 16, 8), Field(p, 24, 4), Field(p, 28, 2),
                        Field(p, 30, 2), Field(p, 32, 2), Field(p, 36, 4), Field(p, 40, 4),
                        ToI32(Field(p, 44, 4)), Field(p, 48, 4), Field(p, 52, 4), Field(p, 56, 4),
                        Field(p, 60, 4)))
  }

  lemma ReceiverOffsets()
    ensures Size(WIDTHS_RECEIVER) == 64
    ensures Offset(WIDTHS_RECEIVER, 0) == 0 && Offset(WIDTHS_RECEIVER, 1) == 8
            && Offset(WIDTHS_RECEIVER, 2) == 16 && Offset(WIDTHS_RECEIVER, 3) == 24
            && Offset(WIDTHS_RECEIVER, 4) == 28 && Offset(WIDTHS_RECEIVER, 5) == 30
            && Offset(WIDTHS_RECEIVER, 6) == 32 && Offset(WIDTHS_RECEIVER, 7) == 34
            && Offset(WIDTHS_RECEIVER, 8) == 36 && Offset(WIDTHS_RECEIVER, 9) == 40
            && Offset(WIDTHS_RECEIVER, 10) == 44 && Offset(WIDTHS_RECEIVER, 11) == 48
            && Offset(WIDTHS_RECEIVER, 12) == 52 && Offset(WIDTHS_RECEIVER, 13) == 56
            && Offset(WIDTHS_RECEIVER, 14) == 60
  {
    hide Offset, Size;
    StartOfFirst(WIDTHS_RECEIVER);
    OffsetStep(WIDTHS_RECEIVER, 0);
    OffsetStep(WIDTHS_RECEIVER, 1);
    OffsetStep(WIDTHS_RECEIVER, 2);
    OffsetStep(WIDTHS_RECEIVER, 3);
    OffsetStep(WIDTHS_RECEIVER, 4);
    OffsetStep(WIDTHS_RECEIVER, 5);
    OffsetStep(WIDTHS_RECEIVER, 6);
    OffsetStep(WIDTHS_RECEIVER, 7);
    OffsetStep(WIDTHS_RECEIVER, 8);
    OffsetStep(WIDTHS_RECEIVER, 9);
    OffsetStep(WIDTHS_RECEIVER, 10);
    OffsetStep(WIDTHS_RECEIVER, 11);
    OffsetStep(WIDTHS_RECEIVER, 12);
    OffsetStep(WIDTHS_RECEIVER, 13);
    EndOfLast(WIDTHS_RECEIVER);
  }

  /** What the fixed offsets read. */
  lemma ReceiverFields(p: seq<byte>)
    requires |p| >= 64
    ensures Size(WIDTHS_RECEIVER) == 64
    ensures var v := Unpack(WIDTHS_RECEIVER, p);
            v[0] == Field(p, 0, 8)
            && v[1] == Field(p, 8, 8)
            && v[2] == Field(p, 16, 8)
            && v[3] == Field(p, 24, 4)
            && v[4] == Field(p, 28, 2)
            && v[5] == Field(p, 30, 2)
            && v[6] == Field(p, 32, 2)
            && v[7] == Field(p, 34, 2)
            && v[8] == Field(p, 36, 4)
            && v[9] == Field(p, 40, 4)
            && v[10] == Field(p, 44, 4)
            && v[11] == Field(p, 48, 4)
            && v[12] == Field(p, 52, 4)
            && v[13] == Field(p, 56, 4)
            && v[14] == Field(p, 60, 4)
  {
    hide Field, Unpack, Offset, Size;
    ReceiverOffsets();
    FieldIs(WIDTHS_RECEIVER, p, 0);
    FieldIs(WIDTHS_RECEIVER, p, 1);
    FieldIs(WIDTHS_RECEIVER, p, 2);
    FieldIs(WIDTHS_RECEIVER, p, 3);
    FieldIs(WIDTHS_RECEIVER, p, 4);
    FieldIs(WIDTHS_RECEIVER, p, 5);
    FieldIs(WIDTHS_RECEIVER, p, 6);
    FieldIs(WIDTHS_RECEIVER, p, 7);
    FieldIs(WIDTHS_RECEIVER, p, 8);
    FieldIs(WIDTHS_RECEIVER, p, 9);
    FieldIs(WIDTHS_RECEIVER, p, 10);
    FieldIs(WIDTHS_RECEIVER, p, 11);
    FieldIs(WIDTHS_RECEIVER, p, 12);
    FieldIs(WIDTHS_RECEIVER, p, 13);
    FieldIs(WIDTHS_RECEIVER, p, 14);
  }

  lemma ReceiverFits(r: ReceiverReport)
    ensures Fits(WIDTHS_RECEIVER, ReceiverValues(r))
  {
    hide Pow256;
    PowersOf256();
  }

  /** Reading a packed report gives its fields. */
  lemma ReceiverReadBack(r: ReceiverReport, p: seq<byte>)
    requires p == Pack(WIDTHS_RECEIVER, ReceiverValues(r))
    ensures |p| == 64
    ensures var v := ReceiverValues(r);
            Field(p, 0, 8) == v[0]
            && Field(p, 8, 8) == v[1]
            && Field(p, 16, 8) == v[2]
            && Field(p, 24, 4) == v[3]
            && Field(p, 28, 2) == v[4]
            && Field(p, 30, 2) == v[5]
            && Field(p, 32, 2) == v[6]
            && Field(p, 34, 2) == v[7]
            && Field(p, 36, 4) == v[8]
            && Field(p, 40, 4) == v[9]
            && Field(p, 44, 4) == v[10]
            && Field(p, 48, 4) == v[11]
            && Field(p, 52, 4) == v[12]
            && Field(p, 56, 4) == v[13]
            && Field(p, 60, 4) == v[14]
  {
    hide Pack, Unpack, Field, Size, Fits, Offset, ReceiverValues;
    var v := ReceiverValues(r);
    ReceiverFits(r);
    UnpackOfPack(WIDTHS_RECEIVER, v, []);
    assert p + [] == p;
    ReceiverOffsets();
    ReceiverFields(p);
  }

  /** Decoding undoes encoding for every value of every field. */
  lemma DecodeReceiverOfEncode(r: ReceiverReport)
    ensures DecodeReceiver(EncodedReceiver(r)[1..]) == Ok(r)
  {
    hide Pack, Field, Size;
    var p := Pack(WIDTHS_RECEIVER, ReceiverValues(r));
    ReceiverReadBack(r, p);
    assert EncodedReceiver(r)[1..] == [0, 0, 0] + p;
    assert EncodedReceiver(r)[1..][3..] == p;
  }

  /** The same, with two more reserved bytes inside. */
  lemma EncodeReceiverOfDecode(payload: seq<byte>)
    requires DecodeReceiver(payload).Ok?
    ensures EncodedReceiver(DecodeReceiver(payload).value) == [2, 0, 0, 0] + payload[3..37] + [0, 0] + payload[39..67]
    ensures EncodedReceiver(DecodeReceiver(payload).value) == [2] + payload
            <==> |payload| == 67 && payload[..3] == [0, 0, 0] && payload[37..39] == [0, 0]
  {
    hide Pack, Unpack, Field, Size, Le;
    var p := payload[3..];
    var v := ReceiverValues(DecodeReceiver(payload).value);
    var clean := p[..34] + [0, 0] + p[36..64];
    ReceiverFields(p);
    ReceiverFields(clean);
    CleanFields(p, clean);
    DecodedValues(payload);
    assert v == Unpack(WIDTHS_RECEIVER, clean);
    PackOfUnpack(WIDTHS_RECEIVER, clean);
    assert clean[..64] == clean;
    assert clean == payload[3..37] + [0, 0] + payload[39..67];
    assert [2, 0, 0, 0] + clean == [2, 0, 0, 0] + payload[3..37] + [0, 0] + payload[39..67];
    SameBehindType(2, payload, [0, 0, 0] + clean, 67);
    if |payload| == 67 {
      assert clean == payload[3..67] <==> payload[37..39] == [0, 0] by { CleanIff(payload, clean); }
    }
  }

  /** Where each field of a receiver report is; two bytes in the middle are zero. */
  lemma ReceiverLayout(r: ReceiverReport)
    ensures var e := EncodedReceiver(r);
            && |e| == 68 && e[..4] == [2, 0, 0, 0]
            && Field(e, 4, 8) == r.highestCounter && Field(e, 12, 8) == r.cumulativePacketsRecv
            && Field(e, 20, 8) == r.cumulativeBytesRecv && Field(e, 28, 4) == r.timestampEcho
            && Field(e, 32, 2) == r.dwellTime && Field(e, 34, 2) == r.maxBurstLoss
            && Field(e, 36, 2) == r.meanBurstLoss && Field(e, 38, 2) == 0
            && Field(e, 40, 4) == r.jitter && Field(e, 44, 4) == r.ecnCeCount
            && Field(e, 48, 4) == ToU32(r.owdTrend) && Field(e, 52, 4) == r.burstLossCount
            && Field(e, 56, 4) == r.cumulativeReorderCount && Field(e, 60, 4) == r.intervalPacketsRecv
            && Field(e, 64, 4) == r.intervalBytesRecv
  {
    hide Pack, Field, Size;
    var p, e := Pack(WIDTHS_RECEIVER, ReceiverValues(r)), EncodedReceiver(r);
    ReceiverReadBack(r, p);
    assert e[4..] == p;
    FieldBehind(e, p, 0, 8); FieldBehind(e, p, 8, 8); FieldBehind(e, p, 16, 8); FieldBehind(e, p, 24, 4);
    FieldBehind(e, p, 28, 2); FieldBehind(e, p, 30, 2); FieldBehind(e, p, 32, 2); FieldBehind(e, p, 34, 2);
    FieldBehind(e, p, 36, 4); FieldBehind(e, p, 40, 4); FieldBehind(e, p, 44, 4); FieldBehind(e, p, 48, 4);
    FieldBehind(e, p, 52, 4); FieldBehind(e, p, 56, 4); FieldBehind(e, p, 60, 4);
  }

  /** A buffer after the first `i` fields. */
  ghost function Buffer(prefix: seq<byte>, widths: seq<nat>, values: seq<nat>, i: nat): seq<byte>
    requires |values| == |widths| && i <= |widths|
  {
    prefix + Pack(widths[..i], values[..i])
  }

  lemma Nothing(prefix: seq<byte>, widths: seq<nat>, values: seq<nat>)
    requires |values| == |widths|
    ensures Buffer(prefix, widths, values, 0) == prefix
  {}

  lemma Put(prefix: seq<byte>, widths: seq<nat>, values: seq<nat>, i: nat)
    requires |values| == |widths| && i < |widths|
    ensures Buffer(prefix, widths, values, i + 1) == Buffer(prefix, widths, values, i) + Le(widths[i], values[i])
  {
    hide Le, Pack;
    assert widths[..i + 1] == widths[..i] + [widths[i]] && values[..i + 1] == values[..i] + [values[i]];
    PackAppend(widths[..i], values[..i], widths[i], values[i]);
  }

  lemma All(prefix: seq<byte>, widths: seq<nat>, values: seq<nat>)
    requires |values| == |widths|
    ensures Buffer(prefix, widths, values, |widths|) == prefix + Pack(widths, values)
  {
    assert widths[..|widths|] == widths && values[..|widths|] == values;
  }

  lemma {:induction false} EndOfLast(widths: seq<nat>)
    requires widths != []
    ensures Size(widths) == Offset(widths, |widths| - 1) + widths[|widths| - 1]
  {
    if |widths| > 1 {
      EndOfLast(widths[1..]);
    }
  }

  lemma TwoZeros()
    ensures Le(2, 0) == [0, 0]
  {}

  lemma StartOfFirst(widths: seq<nat>)
    requires widths != []
    ensures Offset(widths, 0) == 0
  {}

  /** An encoded report equals the type byte and the payload exactly when the parts behind the byte agree. */
  lemma SameBehindType(t: byte, payload: seq<byte>, body: seq<byte>, n: nat)
    requires |body| == n >= 3
    ensures [t] + body == [t] + payload <==> payload == body
    ensures payload == body <==> |payload| == n && payload[..3] == body[..3] && payload[3..n] == body[3..]
  {
    assert ([t] + body)[1..] == body && ([t] + payload)[1..] == payload;
    if |payload| == n && payload[..3] == body[..3] && payload[3..n] == body[3..] {
      assert payload == payload[..3] + payload[3..n];
      assert body == body[..3] + body[3..];
    }
  }

  lemma CleanIff(payload: seq<byte>, clean: seq<byte>)
    requires |payload| == 67 && clean == payload[3..37] + [0, 0] + payload[39..67]
    ensures clean == payload[3..67] <==> payload[37..39] == [0, 0]
  {
    assert payload[3..67] == payload[3..37] + payload[37..39] + payload[39..67];
    assert clean[34..36] == [0, 0] && payload[3..67][34..36] == payload[37..39];
  }

  /** Clearing the reserved field changes no other. */
  lemma CleanFields(p: seq<byte>, clean: seq<byte>)
    requires |p| >= 64 && clean == p[..34] + [0, 0] + p[36..64]
    ensures forall at: nat, w: nat | at + w <= 34 || 36 <= at <= at + w <= 64 :: Field(clean, at, w) == Field(p, at, w)
    ensures Field(clean, 34, 2) == 0
  {
    hide FromLe;
    forall at: nat, w: nat | at + w <= 34 || 36 <= at <= at + w <= 64
      ensures Field(clean, at, w) == Field(p, at, w)
    {
      SameSlice(p, clean, at, at + w);
    }
    ZeroField();
    assert clean[34..36] == [0, 0];
  }

  lemma ZeroField()
    ensures FromLe([0, 0]) == 0
  {}

  lemma SameSlice(p: seq<byte>, clean: seq<byte>, from: nat, until: nat)
    requires |p| >= 64 && clean == p[..34] + [0, 0] + p[36..64]
    requires from <= until <= 34 || 36 <= from <= until <= 64
    ensures clean[from..until] == p[from..until]
  {
    forall k | from <= k < until ensures clean[k] == p[k] {
      if k >= 36 {
        assert clean[k] == p[36..64][k - 36];
      }
    }
  }

  lemma DecodedValues(payload: seq<byte>)
    requires |payload| >= 67
    ensures var p := payload[3..];
            ReceiverValues(DecodeReceiver(payload).value)
            == [Field(p, 0, 8), Field(p, 8, 8), Field(p, 16, 8), Field(p, 24, 4), Field(p, 28, 2),
                Field(p, 30, 2), Field(p, 32, 2), 0, Field(p, 36, 4), Field(p, 40, 4),
                Field(p, 44, 4), Field(p, 48, 4), Field(p, 52, 4), Field(p, 56, 4),
                Field(p, 60, 4)]
  {}
}
