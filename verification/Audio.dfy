/**
 The audio packetizer: one RTP packet per Opus frame, and two Reed-Solomon parity packets after
 every fourth, all numbered by one wrapping 16-bit counter.
 */
module Audio {
  import opened Bytes
  import opened Fec
  import Crypto

  const RTP_HEADER_SIZE := 12
  const AUDIO_PAYLOAD_TYPE: byte := 97
  const AUDIO_PAYLOAD_TYPE_FEC: byte := 127
  const AUDIO_FEC_HEADER_SIZE := 12
  const AUDIO_FEC_PAYLOAD_OFFSET := RTP_HEADER_SIZE + AUDIO_FEC_HEADER_SIZE

  type Packet = seq<byte>

  /** A payload, already encrypted, and its RTP timestamp. */
  datatype Frame = Frame(payload: seq<byte>, timestamp: u32)

  // Wire formats.

  /** The RTP header of section 5.1 of RFC 3550, as this stream fills it in. */
  function RtpHeader(payloadType: byte, sequenceNumber: u16, timestamp: u32): (h: seq<byte>)
    ensures |h| == RTP_HEADER_SIZE && h[1] == payloadType && h[2..4] == Be16(sequenceNumber)
  {
    [0x80, payloadType] + Be16(sequenceNumber) + Be32(timestamp) + [0, 0, 0, 0]
  }

  function DataPacket(sequenceNumber: u16, frame: Frame): (p: Packet)
    ensures |p| == RTP_HEADER_SIZE + |frame.payload|
    ensures p[0] == 0x80 && p[1] == AUDIO_PAYLOAD_TYPE == 97 && p[2..4] == Be16(sequenceNumber)
    ensures p[4..8] == Be32(frame.timestamp) && p[8..12] == [0, 0, 0, 0] && p[RTP_HEADER_SIZE..] == frame.payload
  {
    var h := RtpHeader(AUDIO_PAYLOAD_TYPE, sequenceNumber, frame.timestamp);
    var p := h + frame.payload;
    assert p[2..4] == h[2..4] && p[4..8] == Be32(frame.timestamp) && p[8..12] == [0, 0, 0, 0];
    h + frame.payload
  }

  function FecHeader(index: byte, baseSequenceNumber: u16, baseTimestamp: u32): (h: seq<byte>)
    ensures |h| == AUDIO_FEC_HEADER_SIZE && h[0] == index && h[2..4] == Be16(baseSequenceNumber) && h[4..8] == Be32(baseTimestamp)
  {
    [index, AUDIO_PAYLOAD_TYPE] + Be16(baseSequenceNumber) + Be32(baseTimestamp) + [0, 0, 0, 0]
  }

  function FecPacket(index: byte, sequenceNumber: u16, baseSequenceNumber: u16, baseTimestamp: u32, parity: seq<byte>): (p: Packet)
    ensures |p| == AUDIO_FEC_PAYLOAD_OFFSET + |parity|
    ensures p[1] == AUDIO_PAYLOAD_TYPE_FEC && p[2..4] == Be16(sequenceNumber) && p[12] == index
    ensures p[14..16] == Be16(baseSequenceNumber) && p[16..20] == Be32(baseTimestamp) && p[AUDIO_FEC_PAYLOAD_OFFSET..] == parity
  {
    var h, f := RtpHeader(AUDIO_PAYLOAD_TYPE_FEC, sequenceNumber, 0), FecHeader(index, baseSequenceNumber, baseTimestamp);
    var p := h + f + parity;
    assert p[2..4] == h[2..4] && p[14..16] == f[2..4] && p[16..20] == f[4..8];
    p
  }

  /** Every byte of a parity packet's headers. */
  lemma FecPacketLayout(index: byte, sequenceNumber: u16, baseSequenceNumber: u16, baseTimestamp: u32, parity: seq<byte>)
    ensures var p := FecPacket(index, sequenceNumber, baseSequenceNumber, baseTimestamp, parity);
            && p[..2] == [0x80, 127] && p[2..4] == Be16(sequenceNumber)
            && p[4..12] == [0, 0, 0, 0, 0, 0, 0, 0]
            && p[12..14] == [index, 97] && p[14..16] == Be16(baseSequenceNumber)
            && p[16..20] == Be32(baseTimestamp) && p[20..24] == [0, 0, 0, 0] && p[24..] == parity
  {
    assert Be32(0) == [0, 0, 0, 0] by { ZeroBytes(); }
    var p := FecPacket(index, sequenceNumber, baseSequenceNumber, baseTimestamp, parity);
    assert p[4..8] == Be32(0) && p[8..12] == [0, 0, 0, 0] && p[4..12] == p[4..8] + p[8..12];
    assert p[20..24] == [0, 0, 0, 0];
  }

  lemma ZeroBytes()
    ensures Be32(0) == [0, 0, 0, 0]
  {
    assert Be(0, 2) == Be(0, 1) + [0];
    assert Be(0, 4) == Be(0, 3) + [0];
  }

  // One step of the packetizer.

  datatype State = State(sequenceNumber: u16, baseTimestamp: u32, shards: seq<seq<byte>>, fecEnabled: bool)

  ghost predicate ValidState(s: State) { |s.shards| == DATA_SHARDS }

  function Initial(fecEnabled: bool): State { State(0, 0, [[], [], [], []], fecEnabled) }

  function FecPackets(s: State): seq<Packet>
    requires |s.shards| == DATA_SHARDS
  {
    var n := |s.shards[0]|;
    if !Uniform(s.shards, n) then [] else
      var base := WrapAdd16(s.sequenceNumber, -DATA_SHARDS);
      [FecPacket(0, s.sequenceNumber, base, s.baseTimestamp, Parity(0, s.shards, n)),
       FecPacket(1, WrapAdd16(s.sequenceNumber, 1), base, s.baseTimestamp, Parity(1, s.shards, n))]
  }

  function Next(s: State, frame: Frame): (t: State)
    requires |s.shards| == DATA_SHARDS
    ensures |t.shards| == DATA_SHARDS
  {
    var index := s.sequenceNumber % 4;
    s.(sequenceNumber := WrapAdd16(s.sequenceNumber, 1),
       baseTimestamp := if index == 0 then frame.timestamp else s.baseTimestamp,
       shards := s.shards[index := frame.payload])
  }

  function Emit(s: State, frame: Frame): seq<Packet>
    requires |s.shards| == DATA_SHARDS
  {
    [DataPacket(s.sequenceNumber, frame)] +
    (if s.fecEnabled && s.sequenceNumber % 4 == DATA_SHARDS - 1 then FecPackets(Next(s, frame)) else [])
  }

  // The packetizer object.

  method CopyInto(a: array<byte>, at: nat, bytes: seq<byte>)
    requires at + |bytes| <= a.Length
    modifies a
    ensures a[..] == old(a[..at]) + bytes + old(a[at + |bytes|..])
  {
    forall i | 0 <= i < |bytes| { a[at + i] := bytes[i]; }
  }

  class AudioPacketizer {
    var sequenceNumber: u16
    var baseTimestamp: u32
    const dataShards: array<seq<byte>>
    const fecEnabled: bool

    ghost predicate Valid()
    {
      dataShards.Length == DATA_SHARDS
    }

    /** The fields as one value. */
    ghost function Model(): (s: State)
      requires Valid()
      reads this, dataShards
      ensures ValidState(s)
    {
      State(sequenceNumber, baseTimestamp, dataShards[..], fecEnabled)
    }

    constructor (fecEnabled: bool)
      ensures Valid() && fresh(dataShards) && Model() == Initial(fecEnabled)
    {
      this.fecEnabled := fecEnabled;
      sequenceNumber, baseTimestamp := 0, 0;
      dataShards := new seq<byte>[DATA_SHARDS](_ => []);
    }

    /** Encrypts one Opus frame under the sequence number its packet is about to carry. */
    method PacketizeEncrypted(c: Crypto.BlockCipher, opusFrame: seq<byte>, timestamp: u32, key: Crypto.Key, keyId: u32)
      returns (packets: seq<Packet>)
      requires Valid()
      modifies this, dataShards
      ensures var frame := Frame(Crypto.CbcEncrypted(c, opusFrame, key, Iv(keyId, old(sequenceNumber))), timestamp);
              Model() == Next(old(Model()), frame) && packets == Emit(old(Model()), frame)
    {
      hide Crypto.CbcEncrypted, Next, Emit;
      var iv := new byte[16](i => 0);
      CopyInto(iv, 0, Be32(WrapAdd32(keyId, sequenceNumber)));
      assert iv[..] == Iv(keyId, sequenceNumber);
      var ciphertext := Crypto.CbcEncrypt(c, opusFrame, key, iv[..]);
      packets := Packetize(ciphertext, timestamp);
    }

    method Packetize(payload: seq<byte>, timestamp: u32) returns (packets: seq<Packet>)
      requires Valid()
      modifies this, dataShards
      ensures Model() == Next(old(Model()), Frame(payload, timestamp))
      ensures packets == Emit(old(Model()), Frame(payload, timestamp))
    {
      var packet := new byte[RTP_HEADER_SIZE + |payload|](i => 0);
      FillRtpHeader(packet, AUDIO_PAYLOAD_TYPE, sequenceNumber, timestamp);
      CopyInto(packet, RTP_HEADER_SIZE, payload);
      assert packet[..] == DataPacket(sequenceNumber, Frame(payload, timestamp));
      hide DataPacket, FecPackets;

      var shardIndex := sequenceNumber % 4;
      if shardIndex == 0 {
        baseTimestamp := timestamp;
      }
      dataShards[shardIndex] := payload;
      sequenceNumber := WrapAdd16(sequenceNumber, 1);

      packets := [packet[..]];
      if fecEnabled && shardIndex == DATA_SHARDS - 1 {
        var parity := GenerateFecPackets();
        packets := packets + parity;
      }
    }

    method GenerateFecPackets() returns (packets: seq<Packet>)
      requires Valid()
      ensures packets == FecPackets(Model())
    {
      assert WrapAdd16(sequenceNumber, 0) == sequenceNumber;
      hide Parity, FecPacket, Uniform, RtpHeader, FecHeader, WrapAdd16;
      var shards := dataShards[..];
      var n := |shards[0]|;
      if !Uniform(shards, n) {
        return [];
      }
      var base := WrapAdd16(sequenceNumber, -DATA_SHARDS);
      var packet0 := NewFecPacket(0, base, n);
      var packet1 := NewFecPacket(1, base, n);
      FillParity(packet0, Parity(0, shards, n), 0, sequenceNumber, base, baseTimestamp);
      FillParity(packet1, Parity(1, shards, n), 1, WrapAdd16(sequenceNumber, 1), base, baseTimestamp);
      packets := [packet0[..], packet1[..]];
    }

    /** Both headers filled in, the payload left zero. */
    method NewFecPacket(index: byte, baseSequenceNumber: u16, shardLength: nat) returns (packet: array<byte>)
      ensures fresh(packet) && packet.Length == AUDIO_FEC_PAYLOAD_OFFSET + shardLength
      ensures packet[..AUDIO_FEC_PAYLOAD_OFFSET]
           == RtpHeader(AUDIO_PAYLOAD_TYPE_FEC, WrapAdd16(sequenceNumber, index), 0) + FecHeader(index, baseSequenceNumber, baseTimestamp)
    {
      packet := new byte[AUDIO_FEC_PAYLOAD_OFFSET + shardLength](i => 0);
      FillRtpHeader(packet, AUDIO_PAYLOAD_TYPE_FEC, WrapAdd16(sequenceNumber, index), 0);
      hide RtpHeader, FecHeader;
      FillFecHeader(packet, index, baseSequenceNumber, baseTimestamp);
      assert packet[..AUDIO_FEC_PAYLOAD_OFFSET] == packet[..RTP_HEADER_SIZE] + packet[RTP_HEADER_SIZE..AUDIO_FEC_PAYLOAD_OFFSET];
    }
  }

  method FillFecHeader(packet: array<byte>, index: byte, baseSequenceNumber: u16, baseTimestamp: u32)
    requires packet.Length >= AUDIO_FEC_PAYLOAD_OFFSET
    modifies packet
    ensures packet[..RTP_HEADER_SIZE] == old(packet[..RTP_HEADER_SIZE])
    ensures packet[RTP_HEADER_SIZE..AUDIO_FEC_PAYLOAD_OFFSET] == FecHeader(index, baseSequenceNumber, baseTimestamp)
  {
    packet[12] := index;
    packet[13] := AUDIO_PAYLOAD_TYPE;
    CopyInto(packet, 14, Be16(baseSequenceNumber));
    CopyInto(packet, 16, Be32(baseTimestamp));
    CopyInto(packet, 20, Be32(0));
  }

  /** Writes a parity shard behind the two headers. */
  method FillParity(packet: array<byte>, parity: seq<byte>,
                    ghost index: byte, ghost sequenceNumber: u16, ghost base: u16, ghost baseTimestamp: u32)
    requires packet.Length == AUDIO_FEC_PAYLOAD_OFFSET + |parity|
    requires packet[..AUDIO_FEC_PAYLOAD_OFFSET]
          == RtpHeader(AUDIO_PAYLOAD_TYPE_FEC, sequenceNumber, 0) + FecHeader(index, base, baseTimestamp)
    modifies packet
    ensures packet[..] == FecPacket(index, sequenceNumber, base, baseTimestamp, parity)
  {
    hide RtpHeader, FecHeader;
    CopyInto(packet, AUDIO_FEC_PAYLOAD_OFFSET, parity);
    assert packet[..] == packet[..AUDIO_FEC_PAYLOAD_OFFSET] + parity;
  }

  method FillRtpHeader(packet: array<byte>, payloadType: byte, sequenceNumber: u16, timestamp: u32)
    requires packet.Length >= RTP_HEADER_SIZE
    modifies packet
    ensures packet[..RTP_HEADER_SIZE] == RtpHeader(payloadType, sequenceNumber, timestamp)
    ensures packet[RTP_HEADER_SIZE..] == old(packet[RTP_HEADER_SIZE..])
  {
    packet[0] := 0x80;
    packet[1] := payloadType;
    CopyInto(packet, 2, Be16(sequenceNumber));
    CopyInto(packet, 4, Be32(timestamp));
    CopyInto(packet, 8, Be32(0));
  }

  /** The initialisation vector: key id plus sequence number, big-endian, then zeros. */
  function Iv(keyId: u32, sequenceNumber: u16): Crypto.Block {
    Be32(WrapAdd32(keyId, sequenceNumber)) + seq(12, i => 0)
  }

  /** Its bytes: the sum modulo 2^32, most significant first, and twelve zeros. */
  lemma IvBytes(keyId: u32, sequenceNumber: u16)
    ensures var iv := Iv(keyId, sequenceNumber);
            && (iv[0] as int) * 0x100_0000 + (iv[1] as int) * 0x1_0000 + (iv[2] as int) * 0x100 + iv[3] == (keyId + sequenceNumber) % 0x1_0000_0000
            && forall i :: 4 <= i < 16 ==> iv[i] == 0
  {
    var sum := Be32(WrapAdd32(keyId, sequenceNumber));
    assert Iv(keyId, sequenceNumber)[..4] == sum;
    BigEndian(sum);
  }
}
