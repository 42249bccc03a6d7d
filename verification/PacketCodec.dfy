/**
 The 48-byte NTP packet (RFC 5905, section 7.3): the big-endian codec, packet validation and
 the two packets the daemon builds.

 Shifts and masks on unsigned words are written as division and remainder by powers of two,
 and an or of disjoint bit fields as their sum. A string used as a reference identifier is
 the sequence of its bytes.
 */
module PacketCodec {
  import opened NtpTime

  type byte = n: int | 0 <= n < 256
  type int8 = n: int | -128 <= n < 128

  const NTP_PACKET_SIZE := 48
  const NTP_VERSION: byte := 4
  const MODE_CLIENT: byte := 3
  const MODE_SERVER: byte := 4

  datatype Packet = Packet(
    leapIndicator: byte, version: byte, mode: byte, stratum: byte, poll: byte, precision: int8,
    rootDelay: uint32, rootDispersion: uint32, referenceId: uint32,
    referenceTs: NtpTimestamp, originateTs: NtpTimestamp, receiveTs: NtpTimestamp, transmitTs: NtpTimestamp)
  {
    /** The fields that share the first byte fit their two and three bits. */
    predicate FitsHeader() { leapIndicator < 4 && version < 8 && mode < 8 }

    predicate IsValid() {
      && (version == 3 || version == NTP_VERSION)
      && mode <= 7
      && stratum <= 15
      && 4 <= poll <= 17
      && precision <= 0
      && leapIndicator <= 3
    }
  }

  const ZERO_TIME := NtpTimestamp(0, 0)
  const DEFAULT_PACKET := Packet(0, NTP_VERSION, 0, 0, 0, 0, 0, 0, 0, ZERO_TIME, ZERO_TIME, ZERO_TIME, ZERO_TIME)

  // ---------------------------------------------------------------- words and timestamps

  function BigEndian(a: int, b: int, c: int, d: int): int {
    a * 0x100_0000 + b * 0x1_0000 + c * 0x100 + d
  }

  function ReadU32Be(p: seq<byte>, at: nat): uint32
    requires at + 4 <= |p|
  {
    BigEndian(p[at], p[at + 1], p[at + 2], p[at + 3])
  }

  function U32Bytes(value: uint32): (p: seq<byte>)
    ensures |p| == 4
  {
    [value / 0x100_0000 % 0x100, value / 0x1_0000 % 0x100, value / 0x100 % 0x100, value % 0x100]
  }

  function ReadTimestamp(p: seq<byte>, at: nat): NtpTimestamp
    requires at + 8 <= |p|
  {
    NtpTimestamp(ReadU32Be(p, at), ReadU32Be(p, at + 4))
  }

  function TimestampBytes(ts: NtpTimestamp): (p: seq<byte>)
    ensures |p| == 8
  {
    U32Bytes(ts.seconds) + U32Bytes(ts.fraction)
  }

  /** Reading a word back from any place it was written to. */
  lemma ReadWrittenWord(p: seq<byte>, at: nat, value: uint32)
    requires at + 4 <= |p| && p[at..at + 4] == U32Bytes(value)
    ensures ReadU32Be(p, at) == value
  {
    var w := U32Bytes(value);
    assert p[at] == w[0] && p[at + 1] == w[1] && p[at + 2] == w[2] && p[at + 3] == w[3];
    SumOfBytes(value);
  }

  lemma SumOfBytes(v: uint32)
    ensures v / 0x100_0000 % 0x100 * 0x100_0000 + v / 0x1_0000 % 0x100 * 0x1_0000 + v / 0x100 % 0x100 * 0x100 + v % 0x100 == v
  {
    assert v / 0x100_0000 == v / 0x1_0000 / 0x100;
    assert v / 0x1_0000 == v / 0x100 / 0x100;
  }

  /** Writing a word that was read reproduces the four bytes. */
  lemma WriteReadWord(p: seq<byte>, at: nat)
    requires at + 4 <= |p|
    ensures U32Bytes(ReadU32Be(p, at)) == p[at..at + 4]
  {
    BytesOfSum(p[at], p[at + 1], p[at + 2], p[at + 3]);
    assert p[at..at + 4] == [p[at], p[at + 1], p[at + 2], p[at + 3]];
  }

  lemma BytesOfSum(a: byte, b: byte, c: byte, d: byte)
    ensures var v := BigEndian(a, b, c, d);
            v / 0x100_0000 % 0x100 == a && v / 0x1_0000 % 0x100 == b && v / 0x100 % 0x100 == c && v % 0x100 == d
  {
    var v := BigEndian(a, b, c, d);
    var a', b', c': int := a, b, c;
    DivUnique(v, 0x100_0000, a');
    DivUnique(v, 0x1_0000, a' * 0x100 + b');
    DivUnique(v, 0x100, a' * 0x1_0000 + b' * 0x100 + c');
  }

  // ---------------------------------------------------------------- whole packets

  function FirstByte(p: Packet): byte {
    p.leapIndicator % 4 * 64 + p.version % 8 * 8 + p.mode % 8
  }

  /** static_cast between int8_t and uint8_t keeps the bit pattern. */
  function ToUnsigned8(n: int8): byte { n % 256 }

  function ToSigned8(n: byte): int8 { if n < 128 then n else n - 256 }

  function Encode(p: Packet): (data: seq<byte>)
    ensures |data| == NTP_PACKET_SIZE
  {
    [FirstByte(p), p.stratum, p.poll, ToUnsigned8(p.precision)]
    + U32Bytes(p.rootDelay) + U32Bytes(p.rootDispersion) + U32Bytes(p.referenceId)
    + TimestampBytes(p.referenceTs) + TimestampBytes(p.originateTs)
    + TimestampBytes(p.receiveTs) + TimestampBytes(p.transmitTs)
  }

  function Decode(data: seq<byte>): (p: Packet)
    requires |data| >= NTP_PACKET_SIZE
    ensures p.FitsHeader()
  {
    Packet(data[0] / 64 % 4, data[0] / 8 % 8, data[0] % 8, data[1], data[2], ToSigned8(data[3]),
           ReadU32Be(data, 4), ReadU32Be(data, 8), ReadU32Be(data, 12),
           ReadTimestamp(data, 16), ReadTimestamp(data, 24), ReadTimestamp(data, 32), ReadTimestamp(data, 40))
  }

  lemma ReadWrittenTimestamp(p: seq<byte>, at: nat, ts: NtpTimestamp)
    requires at + 8 <= |p| && p[at..at + 8] == TimestampBytes(ts)
    ensures ReadTimestamp(p, at) == ts
  {
    assert p[at..at + 4] == p[at..at + 8][..4] == U32Bytes(ts.seconds);
    assert p[at + 4..at + 8] == p[at..at + 8][4..] == U32Bytes(ts.fraction);
    ReadWrittenWord(p, at, ts.seconds);
    ReadWrittenWord(p, at + 4, ts.fraction);
  }

  lemma WriteReadTimestamp(p: seq<byte>, at: nat)
    requires at + 8 <= |p|
    ensures TimestampBytes(ReadTimestamp(p, at)) == p[at..at + 8]
  {
    WriteReadWord(p, at);
    WriteReadWord(p, at + 4);
    assert p[at..at + 8] == p[at..at + 4] + p[at + 4..at + 8];
  }

  lemma FieldsOfEncoding(p: Packet)
    ensures var d := Encode(p);
            && d[..4] == [FirstByte(p), p.stratum, p.poll, ToUnsigned8(p.precision)]
            && d[4..8] == U32Bytes(p.rootDelay) && d[8..12] == U32Bytes(p.rootDispersion)
            && d[12..16] == U32Bytes(p.referenceId)
            && d[16..24] == TimestampBytes(p.referenceTs) && d[24..32] == TimestampBytes(p.originateTs)
            && d[32..40] == TimestampBytes(p.receiveTs) && d[40..48] == TimestampBytes(p.transmitTs)
  {
  }

  lemma DecodeWords(d: seq<byte>, p: Packet)
    requires |d| == NTP_PACKET_SIZE
    requires d[4..8] == U32Bytes(p.rootDelay) && d[8..12] == U32Bytes(p.rootDispersion)
    requires d[12..16] == U32Bytes(p.referenceId)
    requires d[16..24] == TimestampBytes(p.referenceTs) && d[24..32] == TimestampBytes(p.originateTs)
    requires d[32..40] == TimestampBytes(p.receiveTs) && d[40..48] == TimestampBytes(p.transmitTs)
    ensures var q := Decode(d);
            && q.rootDelay == p.rootDelay && q.rootDispersion == p.rootDispersion && q.referenceId == p.referenceId
            && q.referenceTs == p.referenceTs && q.originateTs == p.originateTs
            && q.receiveTs == p.receiveTs && q.transmitTs == p.transmitTs
  {
    ReadWrittenWord(d, 4, p.rootDelay);
    ReadWrittenWord(d, 8, p.rootDispersion);
    ReadWrittenWord(d, 12, p.referenceId);
    ReadWrittenTimestamp(d, 16, p.referenceTs);
    ReadWrittenTimestamp(d, 24, p.originateTs);
    ReadWrittenTimestamp(d, 32, p.receiveTs);
    ReadWrittenTimestamp(d, 40, p.transmitTs);
  }

  lemma DecodeHeader(d: seq<byte>, p: Packet)
    requires |d| == NTP_PACKET_SIZE
    requires d[..4] == [FirstByte(p), p.stratum, p.poll, ToUnsigned8(p.precision)]
    ensures var q := Decode(d);
            && q.leapIndicator == p.leapIndicator % 4 && q.version == p.version % 8 && q.mode == p.mode % 8
            && q.stratum == p.stratum && q.poll == p.poll && q.precision == p.precision
  {
    hide ReadU32Be, ReadTimestamp, ToSigned8, ToUnsigned8;
    var head := d[..4];
    assert d[0] == head[0] && d[1] == head[1] && d[2] == head[2] && d[3] == head[3];
    SplitFirstByte(p.leapIndicator, p.version, p.mode);
    SignedUnsigned(p.precision);
  }

  lemma SignedUnsigned(n: int8)
    ensures ToSigned8(ToUnsigned8(n)) == n
  {
  }

  lemma UnsignedSigned(n: byte)
    ensures ToUnsigned8(ToSigned8(n)) == n
  {
  }

  lemma SplitFirstByte(l: byte, v: byte, m: byte)
    ensures var b := l % 4 * 64 + v % 8 * 8 + m % 8;
            b / 64 % 4 == l % 4 && b / 8 % 8 == v % 8 && b % 8 == m % 8
  {
  }

  /** A word is read in network order. */
  lemma WordInNetworkOrder(d: seq<byte>, at: nat)
    requires at + 4 <= |d|
    ensures ReadU32Be(d, at) == NetworkOrder(d[at], d[at + 1], d[at + 2], d[at + 3])
  {
  }

  function NetworkOrder(a: int, b: int, c: int, d: int): int { ((a * 256 + b) * 256 + c) * 256 + d }

  /** What the first four bytes of a packet mean; the precision is in two's complement. */
  lemma HeaderBytes(d: seq<byte>)
    requires |d| >= NTP_PACKET_SIZE
    ensures var p := Decode(d);
            && p.leapIndicator == d[0] / 64 && p.version == d[0] / 8 % 8 && p.mode == d[0] % 8
            && p.stratum == d[1] && p.poll == d[2]
            && p.precision == (if d[3] < 128 then d[3] else (d[3] as int) - 256)
  {
    hide ReadTimestamp, ReadU32Be;
    LeapBits(d[0]);
  }

  lemma LeapBits(b: byte)
    ensures b / 64 % 4 == b / 64
  {
  }

  /** Bytes of a valid packet of a mode: version 3 or 4, stratum up to 15, poll 4 to 17, precision not positive. */
  predicate ValidBytes(data: seq<byte>, mode: int) {
    && |data| >= 48
    && data[0] % 8 == mode && (data[0] / 8 % 8 == 3 || data[0] / 8 % 8 == 4)
    && data[1] <= 15 && 4 <= data[2] <= 17 && (data[3] == 0 || data[3] >= 128)
  }

  lemma ValidBytesIff(data: seq<byte>)
    requires |data| >= NTP_PACKET_SIZE
    ensures Decode(data).IsValid() <==> ValidBytes(data, Decode(data).mode)
    ensures Decode(data).mode == data[0] % 8
  {
    hide Decode;
    HeaderBytes(data);
  }

  lemma TruncatedIsSame(q: Packet, p: Packet)
    requires q.leapIndicator == p.leapIndicator % 4 && q.version == p.version % 8 && q.mode == p.mode % 8
    requires q == p.(leapIndicator := q.leapIndicator, version := q.version, mode := q.mode)
    ensures q == p <==> p.FitsHeader()
  {
    assert forall n: byte :: n % 4 == n <==> n < 4;
    assert forall n: byte :: n % 8 == n <==> n < 8;
  }

  /** Parsing a serialized packet returns it exactly when the shared first byte has room for it. */
  lemma DecodeEncode(p: Packet)
    ensures Decode(Encode(p)) == p <==> p.FitsHeader()
  {
    var d := Encode(p);
    FieldsOfEncoding(p);
    DecodeHeader(d, p);
    DecodeWords(d, p);
    TruncatedIsSame(Decode(d), p);
  }

  lemma JoinFields(data: seq<byte>)
    requires |data| >= NTP_PACKET_SIZE
    ensures data[..NTP_PACKET_SIZE] ==
            data[..4] + data[4..8] + data[8..12] + data[12..16] + data[16..24] + data[24..32] + data[32..40] + data[40..48]
  {
  }

  lemma JoinFirstByte(b: byte)
    ensures b / 64 % 4 % 4 * 64 + b / 8 % 8 % 8 * 8 + b % 8 % 8 == b
  {
  }

  lemma EncodeFields(p: Packet, data: seq<byte>)
    requires |data| >= NTP_PACKET_SIZE
    requires [FirstByte(p), p.stratum, p.poll, ToUnsigned8(p.precision)] == data[..4]
    requires U32Bytes(p.rootDelay) == data[4..8] && U32Bytes(p.rootDispersion) == data[8..12]
    requires U32Bytes(p.referenceId) == data[12..16]
    requires TimestampBytes(p.referenceTs) == data[16..24] && TimestampBytes(p.originateTs) == data[24..32]
    requires TimestampBytes(p.receiveTs) == data[32..40] && TimestampBytes(p.transmitTs) == data[40..48]
    ensures Encode(p) == data[..NTP_PACKET_SIZE]
  {
    JoinFields(data);
  }

  lemma EncodedHeader(data: seq<byte>)
    requires |data| >= NTP_PACKET_SIZE
    ensures var p := Decode(data);
            [FirstByte(p), p.stratum, p.poll, ToUnsigned8(p.precision)] == data[..4]
  {
    hide ReadU32Be, ReadTimestamp, ToSigned8, ToUnsigned8;
    JoinFirstByte(data[0]);
    UnsignedSigned(data[3]);
    assert data[..4] == [data[0], data[1], data[2], data[3]];
  }

  /** Serializing a parsed buffer reproduces its first 48 bytes, whatever they are. */
  lemma EncodeDecode(data: seq<byte>)
    requires |data| >= NTP_PACKET_SIZE
    ensures Encode(Decode(data)) == data[..NTP_PACKET_SIZE]
  {
    WriteReadWord(data, 4);
    WriteReadWord(data, 8);
    WriteReadWord(data, 12);
    WriteReadTimestamp(data, 16);
    WriteReadTimestamp(data, 24);
    WriteReadTimestamp(data, 32);
    WriteReadTimestamp(data, 40);
    EncodedHeader(data);
    EncodeFields(Decode(data), data);
  }

  /** The packet object: a parse assigns its fields, serialization fills a buffer at fixed offsets. */
  class NtpPacket {
    var fields: Packet

    constructor ()
      ensures fields == DEFAULT_PACKET
    {
      fields := DEFAULT_PACKET;
    }

    method ParseFromData(data: seq<byte>) returns (ok: bool)
      modifies this
      ensures ok == (|data| >= NTP_PACKET_SIZE)
      ensures fields == if ok then Decode(data) else old(fields)
    {
      if |data| < NTP_PACKET_SIZE {
        return false;
      }
      var firstByte := data[0];
      fields := fields.(leapIndicator := firstByte / 64 % 4,
                        version := firstByte / 8 % 8,
                        mode := firstByte % 8);
      fields := fields.(stratum := data[1], poll := data[2], precision := ToSigned8(data[3]));
      fields := fields.(rootDelay := ReadU32Be(data, 4),
                        rootDispersion := ReadU32Be(data, 8),
                        referenceId := ReadU32Be(data, 12));
      fields := fields.(referenceTs := ReadTimestamp(data, 16),
                        originateTs := ReadTimestamp(data, 24),
                        receiveTs := ReadTimestamp(data, 32),
                        transmitTs := ReadTimestamp(data, 40));
      return true;
    }

    method SerializeToData() returns (data: array<byte>)
      ensures fresh(data) && data[..] == Encode(fields)
    {
      data := new byte[NTP_PACKET_SIZE](_ => 0);
      data[0] := FirstByte(fields);
      data[1] := fields.stratum;
      data[2] := fields.poll;
      data[3] := ToUnsigned8(fields.precision);
      assert data[..4] == [FirstByte(fields), fields.stratum, fields.poll, ToUnsigned8(fields.precision)];
      WriteU32Be(data, 4, fields.rootDelay);
      WriteU32Be(data, 8, fields.rootDispersion);
      WriteU32Be(data, 12, fields.referenceId);
      WriteTimestamp(data, 16, fields.referenceTs);
      WriteTimestamp(data, 24, fields.originateTs);
      WriteTimestamp(data, 32, fields.receiveTs);
      WriteTimestamp(data, 40, fields.transmitTs);
      assert data[..] == data[..48];
    }
  }

  method WriteU32Be(p: array<byte>, at: nat, value: uint32)
    requires at + 4 <= p.Length
    modifies p
    ensures p[..at + 4] == old(p[..at]) + U32Bytes(value)
    ensures p[at + 4..] == old(p[at + 4..])
  {
    p[at] := value / 0x100_0000 % 0x100;
    p[at + 1] := value / 0x1_0000 % 0x100;
    p[at + 2] := value / 0x100 % 0x100;
    p[at + 3] := value % 0x100;
  }

  method WriteTimestamp(p: array<byte>, at: nat, ts: NtpTimestamp)
    requires at + 8 <= p.Length
    modifies p
    ensures p[..at + 8] == old(p[..at]) + TimestampBytes(ts)
    ensures p[at + 8..] == old(p[at + 8..])
  {
    WriteU32Be(p, at, ts.seconds);
    label half:
    WriteU32Be(p, at + 4, ts.fraction);
    assert p[at + 8..] == old@half(p[at + 4..])[4..];
  }

  // ---------------------------------------------------------------- packets the daemon builds

  function ClientRequest(now: int64): Packet {
    DEFAULT_PACKET.(mode := MODE_CLIENT, poll := 4, precision := -6, transmitTs := FromSystemTime(now))
  }

  /** The request on the wire: version 4, client mode, poll 4, precision -6, and the clock as transmit timestamp. */
  lemma ClientRequestOnWire(now: int64)
    ensures var data := Encode(ClientRequest(now));
            && data[..4] == [0x23, 0, 4, 0xFA]
            && (forall i :: 4 <= i < 40 ==> data[i] == 0)
            && data[40..48] == TimestampBytes(FromSystemTime(now))
  {
    hide FromSystemTime, Encode;
    var p := ClientRequest(now);
    var d := Encode(p);
    FieldsOfEncoding(p);
    assert U32Bytes(0) == [0, 0, 0, 0] && TimestampBytes(ZERO_TIME) == [0, 0, 0, 0] + [0, 0, 0, 0];
    assert d[4..40] == d[4..8] + d[8..12] + d[12..16] + d[16..24] + d[24..32] + d[32..40];
    forall i | 4 <= i < 40 ensures d[i] == 0 {
      assert d[i] == d[4..40][i - 4];
    }
  }

  /** The reference identifier as wire bytes: the first four characters, right aligned. */
  function ReferenceBytes(id: seq<byte>): (p: seq<byte>)
    ensures |p| == 4
    ensures |id| == 4 ==> p == id
  {
    if |id| >= 4 then id[..4] else [0, 0, 0, 0][|id|..] + id
  }

  function ServerResponse(client: Packet, stratum: byte, id: seq<byte>,
                          receivedAt: int64, sentAt: int64, referenceAt: int64): Packet
  {
    DEFAULT_PACKET.(
      mode := MODE_SERVER, stratum := stratum, poll := 4, precision := -6,
      originateTs := client.transmitTs,
      receiveTs := FromSystemTime(receivedAt),
      transmitTs := FromSystemTime(sentAt),
      referenceTs := FromSystemTime(referenceAt),
      referenceId := ReadU32Be(ReferenceBytes(id), 0))
  }

  /** Builds the answer; the three clock readings are taken in the order of the parameters. */
  method CreateServerResponse(client: Packet, stratum: byte, id: seq<byte>,
                              receivedAt: int64, sentAt: int64, referenceAt: int64) returns (packet: Packet)
    ensures packet == ServerResponse(client, stratum, id, receivedAt, sentAt, referenceAt)
  {
    packet := DEFAULT_PACKET;
    packet := packet.(mode := MODE_SERVER, stratum := stratum, poll := 4, precision := -6);
    packet := packet.(originateTs := client.transmitTs,
                      receiveTs := FromSystemTime(receivedAt),
                      transmitTs := FromSystemTime(sentAt));
    packet := packet.(referenceTs := FromSystemTime(referenceAt));

    var refId := ReferenceWord(id);
    packet := packet.(referenceId := refId);
  }

  /** The number whose base-256 digits are the first `i` bytes. */
  function Digits(id: seq<byte>, i: nat): (n: nat)
    requires i <= |id| && i <= 4
    ensures i < 4 ==> n < 0x100_0000
    ensures i < 3 ==> n < 0x1_0000
    ensures i < 2 ==> n < 0x100
  {
    if i == 0 then 0 else Digits(id, i - 1) * 0x100 + id[i - 1]
  }

  /** The loop that shifts the first characters of the identifier into one word. */
  method ReferenceWord(id: seq<byte>) returns (refId: uint32)
    ensures refId == ReadU32Be(ReferenceBytes(id), 0)
  {
    refId := 0;
    var n := if |id| < 4 then |id| else 4;
    for i := 0 to n
      invariant refId == Digits(id, i)
    {
      refId := refId * 0x100 % 0x1_0000_0000 + id[i];
    }
    DigitsOfReference(id, n);
  }

  lemma DigitsOfReference(id: seq<byte>, n: nat)
    requires n == if |id| < 4 then |id| else 4
    ensures Digits(id, n) == ReadU32Be(ReferenceBytes(id), 0)
  {
    if n > 0 {
      assert Digits(id, 1) == id[0];
    }
    if n > 1 {
      assert Digits(id, 2) == BigEndian(0, 0, id[0], id[1]);
    }
    if n > 2 {
      assert Digits(id, 3) == BigEndian(0, id[0], id[1], id[2]);
    }
  }

  lemma ServerHeaderOnWire(p: Packet)
    requires p.leapIndicator == 0 && p.version == 4 && p.mode == 4 && p.poll == 4 && p.precision == -6
    requires p.rootDelay == 0 && p.rootDispersion == 0
    ensures Encode(p)[..4] == [0x24, p.stratum, 4, 0xFA]
    ensures Encode(p)[4..12] == [0, 0, 0, 0, 0, 0, 0, 0]
  {
    hide Encode;
    FieldsOfEncoding(p);
    assert U32Bytes(0) == [0, 0, 0, 0];
    assert Encode(p)[4..12] == Encode(p)[4..8] + Encode(p)[8..12];
  }

  /**
   Every answer parses to itself, passes validation exactly with a stratum up to 15, and on the
   wire carries the identifier and, as originate timestamp, the client's transmit time.
   */
  lemma ServerResponseOnWire(client: Packet, stratum: byte, id: seq<byte>,
                             receivedAt: int64, sentAt: int64, referenceAt: int64)
    ensures var p := ServerResponse(client, stratum, id, receivedAt, sentAt, referenceAt);
            && p.FitsHeader() && (p.IsValid() <==> stratum <= 15) && Decode(Encode(p)) == p
            && Encode(p)[..4] == [0x24, stratum, 4, 0xFA]
            && Encode(p)[4..12] == [0, 0, 0, 0, 0, 0, 0, 0]
            && Encode(p)[12..16] == ReferenceBytes(id)
            && Encode(p)[24..32] == TimestampBytes(client.transmitTs)
  {
    hide FromSystemTime, Encode, Decode;
    var p := ServerResponse(client, stratum, id, receivedAt, sentAt, referenceAt);
    hide U32Bytes, ReadU32Be, TimestampBytes, ReferenceBytes;
    DecodeEncode(p);
    ServerHeaderOnWire(p);
    FieldsOfEncoding(p);
    WriteReadWord(ReferenceBytes(id), 0);
    assert ReferenceBytes(id)[0..4] == ReferenceBytes(id);
  }

  /** Each check of validation in its order; the list of faults is empty exactly for a valid packet. */
  datatype PacketFault = BadVersion | BadMode | BadStratum | BadPoll | BadPrecision | BadLeap

  /** What each fault says about the packet. */
  predicate Faulty(p: Packet, fault: PacketFault) {
    match fault
    case BadVersion => p.version != 3 && p.version != 4
    case BadMode => p.mode > 7
    case BadStratum => p.stratum > 15
    case BadPoll => p.poll < 4 || p.poll > 17
    case BadPrecision => p.precision > 0
    case BadLeap => p.leapIndicator > 3
  }

  method ValidateDetailed(p: Packet) returns (valid: bool, errors: seq<PacketFault>)
    ensures valid == p.IsValid() == (errors == [])
    ensures forall fault :: fault in errors <==> Faulty(p, fault)
  {
    errors := [];
    valid := true;
    if !(p.version == 3 || p.version == NTP_VERSION) {
      errors := errors + [BadVersion];
      valid := false;
    }
    if p.mode > 7 {
      errors := errors + [BadMode];
      valid := false;
    }
    if p.stratum > 15 {
      errors := errors + [BadStratum];
      valid := false;
    }
    if p.poll < 4 || p.poll > 17 {
      errors := errors + [BadPoll];
      valid := false;
    }
    if p.precision > 0 {
      errors := errors + [BadPrecision];
      valid := false;
    }
    if p.leapIndicator > 3 {
      errors := errors + [BadLeap];
      valid := false;
    }
  }
}
