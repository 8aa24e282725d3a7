/**
 A client of the audio stream: it sorts the packets of one group by what their headers say, rebuilds
 lost payloads from parity, and decrypts each under the sequence number it must have carried.
 */
module AudioReceiver {
  import opened Bytes
  import opened Fec
  import opened Audio
  import opened AudioRun
  import Crypto

  ghost predicate WellFormed(p: Packet) {
    && |p| >= RTP_HEADER_SIZE
    && (p[1] != AUDIO_PAYLOAD_TYPE ==> |p| >= AUDIO_FEC_PAYLOAD_OFFSET)
  }

  /** Which of the group's six shards a packet carries. */
  ghost function Slot(p: Packet): nat
    requires WellFormed(p)
  {
    if p[1] == AUDIO_PAYLOAD_TYPE then FromBe16(p[2..4]) % 4 else DATA_SHARDS + p[12]
  }

  /** The group's first sequence number. */
  ghost function GroupBase(p: Packet): u16
    requires WellFormed(p)
  {
    if p[1] == AUDIO_PAYLOAD_TYPE then FromBe16(p[2..4]) - FromBe16(p[2..4]) % 4 else FromBe16(p[14..16])
  }

  ghost function Payload(p: Packet): seq<byte>
    requires WellFormed(p)
  {
    if p[1] == AUDIO_PAYLOAD_TYPE then p[RTP_HEADER_SIZE..] else p[AUDIO_FEC_PAYLOAD_OFFSET..]
  }

  /** The payload of the first packet received for slot `k`. */
  ghost function Arrived(rx: seq<Packet>, k: nat): Option<seq<byte>>
    requires forall p | p in rx :: WellFormed(p)
  {
    if rx == [] then None
    else if Slot(rx[0]) == k then Some(Payload(rx[0]))
    else Arrived(rx[1..], k)
  }

  ghost function Have(rx: seq<Packet>): (h: seq<Option<seq<byte>>>)
    requires forall p | p in rx :: WellFormed(p)
    ensures |h| == DATA_SHARDS + FEC_SHARDS
  {
    seq(DATA_SHARDS + FEC_SHARDS, k requires 0 <= k < DATA_SHARDS + FEC_SHARDS => Arrived(rx, k))
  }

  /** A group's packets, in any order and with repeats, as the client can check them. */
  ghost predicate Consistent(rx: seq<Packet>) {
    && rx != []
    && (forall p | p in rx :: WellFormed(p))
    && (forall p | p in rx :: |Payload(p)| == |Payload(rx[0])|)
  }

  /** The client's own initialisation vector: key id plus packet number, cut into bytes. */
  function ClientIv(keyId: u32, number: u16): Crypto.Block {
    var n := (keyId + number) % 0x1_0000_0000;
    [n / 0x100 / 0x100 / 0x100, n / 0x100 / 0x100 % 0x100, n / 0x100 % 0x100, n % 0x100] + [0, 0, 0, 0, 0, 0, 0, 0, 0, 0, 0, 0]
  }

  lemma ClientIvAgrees(keyId: u32, number: u16)
    ensures ClientIv(keyId, number) == Iv(keyId, number)
  {
    hide Iv;
    IvBytes(keyId, number);
    FourBytes(Iv(keyId, number)[..4], (keyId + number) % 0x1_0000_0000);
  }

  lemma LastByte(q: nat, b: byte, n: nat)
    requires n == q * 0x100 + b
    ensures n / 0x100 == q && n % 0x100 == b
  {}

  lemma FourBytes(b: seq<byte>, n: nat)
    requires |b| == 4
    requires (b[0] as int) * 0x100_0000 + (b[1] as int) * 0x1_0000 + (b[2] as int) * 0x100 + b[3] == n
    ensures b[0] == n / 0x100 / 0x100 / 0x100 && b[1] == n / 0x100 / 0x100 % 0x100
    ensures b[2] == n / 0x100 % 0x100 && b[3] == n % 0x100
  {
    var b0, b1, b2: int := b[0], b[1], b[2];
    LastByte(b0 * 0x1_0000 + b1 * 0x100 + b2, b[3], n);
    LastByte(b0 * 0x100 + b1, b[2], b0 * 0x1_0000 + b1 * 0x100 + b2);
    LastByte(b0, b[1], b0 * 0x100 + b1);
  }

  /** Frame `i` of the group: recovered if need be, then decrypted. */
  ghost function Play(c: Crypto.BlockCipher, key: Crypto.Key, keyId: u32, rx: seq<Packet>, i: nat): Option<seq<byte>>
    requires i < DATA_SHARDS
  {
    if !Consistent(rx) then None else
      ArrivedLengths(rx);
      var ciphertext := RecoverShard(Have(rx), |Payload(rx[0])|, i);
      Crypto.CbcDecrypted(c, ciphertext, key, ClientIv(keyId, (GroupBase(rx[0]) + i) % 0x1_0000))
  }

  lemma {:induction false} ArrivedIn(rx: seq<Packet>, k: nat)
    requires forall p | p in rx :: WellFormed(p)
    ensures Arrived(rx, k).Some? ==> exists p | p in rx :: Slot(p) == k && Payload(p) == Arrived(rx, k).value
    ensures Arrived(rx, k).None? ==> forall p | p in rx :: Slot(p) != k
  {
    if rx != [] && Slot(rx[0]) != k {
      ArrivedIn(rx[1..], k);
      forall p | p in rx && Arrived(rx, k).None? ensures Slot(p) != k {
        assert p == rx[0] || p in rx[1..];
      }
    }
  }

  lemma ArrivedLengths(rx: seq<Packet>)
    requires Consistent(rx)
    ensures forall k | 0 <= k < |Have(rx)| && Have(rx)[k].Some? :: |Have(rx)[k].value| == |Payload(rx[0])|
  {
    forall k | 0 <= k < |Have(rx)| && Have(rx)[k].Some?
      ensures |Have(rx)[k].value| == |Payload(rx[0])|
    {
      ArrivedIn(rx, k);
    }
  }

  // The server's side of one group.

  /** The frames as sent: each encrypted under its own sequence number. */
  function Encrypt(c: Crypto.BlockCipher, key: Crypto.Key, keyId: u32, opus: seq<Frame>): (frames: seq<Frame>)
    ensures |frames| == |opus|
    ensures forall n | 0 <= n < |opus| ::
              frames[n] == Frame(Crypto.CbcEncrypted(c, opus[n].payload, key, Iv(keyId, n % 0x1_0000)), opus[n].timestamp)
  {
    seq(|opus|, n requires 0 <= n < |opus| =>
      Frame(Crypto.CbcEncrypted(c, opus[n].payload, key, Iv(keyId, n % 0x1_0000)), opus[n].timestamp))
  }

  /** Everything sent for group `g`: the packets of its four frames. */
  function GroupPackets(frames: seq<Frame>, g: nat): seq<Packet>
    requires 4 * g + 4 <= |frames|
  {
    var n := 4 * g;
    Sent(frames, true, n) + Sent(frames, true, n + 1) + Sent(frames, true, n + 2) + Sent(frames, true, n + 3)
  }

  /** Which of the packets sent are among those received. */
  ghost function Delivered(sent: seq<Packet>, rx: seq<Packet>): (d: seq<Option<Packet>>)
    ensures |d| == |sent|
    ensures forall k | 0 <= k < |d| :: d[k] == if sent[k] in rx then Some(sent[k]) else None
  {
    seq(|sent|, k requires 0 <= k < |sent| => if sent[k] in rx then Some(sent[k]) else None)
  }

  /** Packet `k` of a group: slot, base and payload are what its headers say. */
  ghost predicate Carries(p: Packet, k: nat, base: u16, payload: seq<byte>) {
    WellFormed(p) && Slot(p) == k && GroupBase(p) == base && Payload(p) == payload
  }

  /** The group that ends at frame `n` has payloads of one length. */
  ghost predicate EqualLengths(frames: seq<Frame>, n: nat)
    requires DATA_SHARDS - 1 <= n < |frames|
  {
    Uniform(GroupPayloads(frames, n), |GroupPayloads(frames, n)[0]|)
  }

  lemma SentInGroup(frames: seq<Frame>, g: nat, k: nat)
    requires 4 * g + 4 <= |frames| && k < DATA_SHARDS && EqualLengths(frames, 4 * g + 3)
    ensures var n := 4 * g + k;
            Sent(frames, true, n) ==
            [DataPacket(n % 0x1_0000, frames[n])] + (if k == DATA_SHARDS - 1 then GroupParity(frames, n) else [])
  {
    hide Uniform, Sent, DataPacket, GroupParity, GroupPayloads, CompletesGroup, EqualLengths;
    SentClosed(frames, true, 4 * g + k);
    CompletesInGroup(frames, g, k);
  }

  lemma CompletesInGroup(frames: seq<Frame>, g: nat, k: nat)
    requires 4 * g + 4 <= |frames| && k < DATA_SHARDS
    ensures CompletesGroup(frames, 4 * g + k) <==> k == DATA_SHARDS - 1 && EqualLengths(frames, 4 * g + 3)
  {
    hide Uniform, GroupPayloads;
    InGroup(g, k);
  }

  lemma InGroup(g: nat, k: nat)
    requires k < 4
    ensures (4 * g + k) % 4 == k
  {}

  /** Packet `k` of a group: four of data, then two of parity. */
  function GroupPacket(frames: seq<Frame>, g: nat, k: nat): Packet
    requires 4 * g + 4 <= |frames| && EqualLengths(frames, 4 * g + 3) && k < DATA_SHARDS + FEC_SHARDS
  {
    var n := 4 * g;
    if k < DATA_SHARDS then DataPacket((n + k) % 0x1_0000, frames[n + k]) else ParityPacket(frames, n + 3, k - DATA_SHARDS)
  }

  lemma SixPackets(a: Packet, b: Packet, c: Packet, d: Packet, parity: seq<Packet>)
    requires |parity| == FEC_SHARDS
    ensures [a] + [] + ([b] + []) + ([c] + []) + ([d] + parity) == [a, b, c, d, parity[0], parity[1]]
  {}

  lemma GroupInOrder(frames: seq<Frame>, g: nat)
    requires 4 * g + 4 <= |frames| && EqualLengths(frames, 4 * g + 3)
    ensures GroupPackets(frames, g)
            == [GroupPacket(frames, g, 0), GroupPacket(frames, g, 1), GroupPacket(frames, g, 2), GroupPacket(frames, g, 3),
                GroupPacket(frames, g, 4), GroupPacket(frames, g, 5)]
  {
    hide Uniform, Sent, DataPacket, ParityPacket, GroupPayloads, EqualLengths, CompletesGroup;
    SentInGroup(frames, g, 0);
    SentInGroup(frames, g, 1);
    SentInGroup(frames, g, 2);
    SentInGroup(frames, g, 3);
    CompletesInGroup(frames, g, 3);
    SixPackets(GroupPacket(frames, g, 0), GroupPacket(frames, g, 1), GroupPacket(frames, g, 2), GroupPacket(frames, g, 3),
               GroupParity(frames, 4 * g + 3));
  }

  lemma GroupLayout(frames: seq<Frame>, g: nat)
    requires 4 * g + 4 <= |frames| && EqualLengths(frames, 4 * g + 3)
    ensures GroupPackets(frames, g) ==
            seq(DATA_SHARDS + FEC_SHARDS, k requires 0 <= k < DATA_SHARDS + FEC_SHARDS => GroupPacket(frames, g, k))
  {
    hide GroupPacket, GroupPackets, EqualLengths;
    GroupInOrder(frames, g);
  }

  /** A sequence number tells its group's base and its place in the group, wraparound included. */
  lemma PlaceInGroup(g: nat, k: nat)
    requires k < DATA_SHARDS
    ensures var x := (4 * g + k) % 0x1_0000;
            x % 4 == k && x - x % 4 == 4 * g % 0x1_0000
  {}

  lemma DataCarries(g: nat, k: nat, frame: Frame)
    requires k < DATA_SHARDS
    ensures Carries(DataPacket((4 * g + k) % 0x1_0000, frame), k, 4 * g % 0x1_0000, frame.payload)
  {
    hide DataPacket;
    PlaceInGroup(g, k);
  }

  lemma ParityCarries(frames: seq<Frame>, g: nat, j: nat)
    requires 4 * g + 4 <= |frames| && EqualLengths(frames, 4 * g + 3) && j < FEC_SHARDS
    ensures var n := 4 * g; var d := GroupPayloads(frames, n + 3);
            Carries(ParityPacket(frames, n + 3, j), DATA_SHARDS + j, n % 0x1_0000, Shard(d, |d[0]|, DATA_SHARDS + j))
  {
    hide Uniform, Parity, FecPacket;
  }

  /** The six packets of a group of equal lengths carry its six shards in order. */
  lemma GroupCarries(frames: seq<Frame>, g: nat, k: nat)
    requires 4 * g + 4 <= |frames| && k < DATA_SHARDS + FEC_SHARDS
    requires EqualLengths(frames, 4 * g + 3)
    ensures |GroupPackets(frames, g)| == DATA_SHARDS + FEC_SHARDS
    ensures var d := GroupPayloads(frames, 4 * g + 3);
            Carries(GroupPackets(frames, g)[k], k, 4 * g % 0x1_0000, Shard(d, |d[0]|, k))
  {
    hide Uniform, DataPacket, ParityPacket, Carries, Parity, GroupPackets;
    GroupLayout(frames, g);
    if k < DATA_SHARDS {
      DataCarries(g, k, frames[4 * g + k]);
    } else {
      ParityCarries(frames, g, k - DATA_SHARDS);
    }
  }

  /** The packetizer's state after encrypting and packetizing a run of Opus frames, call by call. */
  function EncryptedAfter(c: Crypto.BlockCipher, key: Crypto.Key, keyId: u32, opus: seq<Frame>, fecEnabled: bool): (s: State)
    ensures |s.shards| == DATA_SHARDS
  {
    if opus == [] then Initial(fecEnabled) else
      var last := opus[|opus| - 1];
      var before := EncryptedAfter(c, key, keyId, opus[..|opus| - 1], fecEnabled);
      Next(before, Frame(Crypto.CbcEncrypted(c, last.payload, key, Iv(keyId, before.sequenceNumber)), last.timestamp))
  }

  /** The counter each call encrypts under is the number its packet carries, over runs of any length. */
  lemma {:induction false} EncryptedRun(c: Crypto.BlockCipher, key: Crypto.Key, keyId: u32, opus: seq<Frame>, fecEnabled: bool)
    ensures EncryptedAfter(c, key, keyId, opus, fecEnabled) == After(Encrypt(c, key, keyId, opus), fecEnabled)
  {
    hide Crypto.CbcEncrypted, Iv, Next;
    if opus != [] {
      var n := |opus| - 1;
      EncryptedRun(c, key, keyId, opus[..n], fecEnabled);
      AfterClosed(Encrypt(c, key, keyId, opus[..n]), fecEnabled);
      assert Encrypt(c, key, keyId, opus)[..n] == Encrypt(c, key, keyId, opus[..n]);
    }
  }

  /** What encrypting and packetizing the n-th frame of the run sends. */
  function EncryptedSent(c: Crypto.BlockCipher, key: Crypto.Key, keyId: u32, opus: seq<Frame>, fecEnabled: bool, n: nat): seq<Packet>
    requires n < |opus|
  {
    var s := EncryptedAfter(c, key, keyId, opus[..n], fecEnabled);
    Emit(s, Frame(Crypto.CbcEncrypted(c, opus[n].payload, key, Iv(keyId, s.sequenceNumber)), opus[n].timestamp))
  }

  /** The packets of the run, call by call, are those of the encrypted frames. */
  lemma EncryptedPackets(c: Crypto.BlockCipher, key: Crypto.Key, keyId: u32, opus: seq<Frame>, fecEnabled: bool, n: nat)
    requires n < |opus|
    ensures EncryptedSent(c, key, keyId, opus, fecEnabled, n) == Sent(Encrypt(c, key, keyId, opus), fecEnabled, n)
  {
    hide Crypto.CbcEncrypted, Iv, Emit, EncryptedAfter, After, Summarises;
    EncryptedRun(c, key, keyId, opus[..n], fecEnabled);
    EncryptedCounter(c, key, keyId, opus[..n], fecEnabled);
    assert Encrypt(c, key, keyId, opus)[..n] == Encrypt(c, key, keyId, opus[..n]);
  }

  lemma EncryptedCounter(c: Crypto.BlockCipher, key: Crypto.Key, keyId: u32, opus: seq<Frame>, fecEnabled: bool)
    ensures After(Encrypt(c, key, keyId, opus), fecEnabled).sequenceNumber == |opus| % 0x1_0000
  {
    hide Crypto.CbcEncrypted, Iv, After;
    AfterClosed(Encrypt(c, key, keyId, opus), fecEnabled);
  }

  // What the client gets back.

  /** Slot by slot, the client has exactly the delivered packets' payloads. */
  lemma HaveDelivered(frames: seq<Frame>, g: nat, rx: seq<Packet>)
    requires 4 * g + 4 <= |frames| && EqualLengths(frames, 4 * g + 3)
    requires forall p | p in rx :: p in GroupPackets(frames, g)
    ensures var d := GroupPayloads(frames, 4 * g + 3);
            && (forall p | p in rx :: WellFormed(p) && GroupBase(p) == 4 * g % 0x1_0000 && |Payload(p)| == |d[0]|)
            && Received(Have(rx), EncodeShards(d, |d[0]|))
            && Losses(Have(rx)) == Losses(Delivered(GroupPackets(frames, g), rx))
  {
    hide Uniform, GroupPackets, Shard, Losses, Slot, GroupBase, Payload;
    var sent, d, base := GroupPackets(frames, g), GroupPayloads(frames, 4 * g + 3), 4 * g % 0x1_0000;
    forall k | 0 <= k < DATA_SHARDS + FEC_SHARDS
      ensures |sent| == DATA_SHARDS + FEC_SHARDS && Carries(sent[k], k, base, Shard(d, |d[0]|, k))
    {
      GroupCarries(frames, g, k);
    }
    assert |sent| == DATA_SHARDS + FEC_SHARDS by { GroupCarries(frames, g, 0); }
    forall k | 0 <= k < DATA_SHARDS + FEC_SHARDS
      ensures Have(rx)[k].None? <==> Delivered(sent, rx)[k].None?
      ensures Have(rx)[k].Some? ==> Have(rx)[k].value == Shard(d, |d[0]|, k)
    {
      ArrivedIn(rx, k);
    }
    SameLosses(Have(rx), Delivered(sent, rx));
  }

  /** A client receives packets of group `g` only, and loses at most two of the six. */
  ghost predicate EnoughArrives(frames: seq<Frame>, g: nat, rx: seq<Packet>)
    requires 4 * g + 4 <= |frames|
  {
    && (forall p | p in rx :: p in GroupPackets(frames, g))
    && Losses(Delivered(GroupPackets(frames, g), rx)) <= FEC_SHARDS
  }

  lemma {:induction false} NoLosses<T>(d: seq<Option<T>>)
    requires forall k | 0 <= k < |d| :: d[k].Some?
    ensures Losses(d) == 0
  {
    if d != [] { NoLosses(d[1..]); }
  }

  /** Losing nothing is one way for enough to arrive. */
  lemma EverythingArrives(frames: seq<Frame>, g: nat)
    requires 4 * g + 4 <= |frames|
    ensures EnoughArrives(frames, g, GroupPackets(frames, g))
  {
    hide GroupPackets;
    NoLosses(Delivered(GroupPackets(frames, g), GroupPackets(frames, g)));
  }

  /**
   For every run of frames and every completed group of equal lengths, under any key and key id: a
   client that receives at least four of the group's six packets, in any order and with repeats,
   plays back each of the group's four frames exactly as the server was given it.
   */
  lemma GroupPlaysBack(c: Crypto.BlockCipher, key: Crypto.Key, keyId: u32, opus: seq<Frame>, g: nat, rx: seq<Packet>, i: nat)
    requires Crypto.Lawful(c) && 4 * g + 4 <= |opus| && i < DATA_SHARDS
    ensures EqualLengths(opus, 4 * g + 3) && EnoughArrives(Encrypt(c, key, keyId, opus), g, rx)
            ==> Play(c, key, keyId, rx, i) == Some(opus[4 * g + i].payload)
  {
    hide Crypto.CbcEncrypted, Crypto.CbcDecrypted, GroupPackets, RecoverShard, Have, Uniform, Slot, GroupBase, Payload, Iv, Play;
    var frames, n := Encrypt(c, key, keyId, opus), 4 * g;
    if EqualLengths(opus, n + 3) && EnoughArrives(frames, g, rx) {
      var d := GroupPayloads(frames, n + 3);
      EqualAfterPadding(c, key, keyId, opus, n + 3);
      HaveDelivered(frames, g, rx);
      NothingReceived(rx);
      hide Losses, Delivered, Received, EncodeShards, WellFormed;
      ShardsRecovered(d, |d[0]|, Have(rx), i);
      ArrivedLengths(rx);
      DecryptShard(c, key, keyId, rx, i, n, opus[n + i].payload);
    }
  }

  /** A shard of the right group decrypts under the number its packet carried. */
  lemma DecryptShard(c: Crypto.BlockCipher, key: Crypto.Key, keyId: u32, rx: seq<Packet>, i: nat, n: nat, plain: seq<byte>)
    requires Crypto.Lawful(c) && i < DATA_SHARDS && Consistent(rx) && GroupBase(rx[0]) == n % 0x1_0000
    requires forall k | 0 <= k < |Have(rx)| && Have(rx)[k].Some? :: |Have(rx)[k].value| == |Payload(rx[0])|
    requires RecoverShard(Have(rx), |Payload(rx[0])|, i) == Crypto.CbcEncrypted(c, plain, key, Iv(keyId, (n + i) % 0x1_0000))
    ensures Play(c, key, keyId, rx, i) == Some(plain)
  {
    hide Crypto.CbcEncrypted, Crypto.CbcDecrypted, RecoverShard, Have, GroupBase, Payload, Iv;
    SequenceInGroup(n, i);
    ClientIvAgrees(keyId, (n + i) % 0x1_0000);
    hide ClientIv;
    Crypto.CbcRoundTrip(c, plain, key, Iv(keyId, (n + i) % 0x1_0000));
  }

  /** Frames of one length stay of one length after padding, so their group is never left without parity. */
  lemma EqualAfterPadding(c: Crypto.BlockCipher, key: Crypto.Key, keyId: u32, opus: seq<Frame>, n: nat)
    requires DATA_SHARDS - 1 <= n < |opus| && EqualLengths(opus, n)
    ensures EqualLengths(Encrypt(c, key, keyId, opus), n)
  {
    hide Crypto.CbcEncrypted, Iv;
    var before, after := GroupPayloads(opus, n), GroupPayloads(Encrypt(c, key, keyId, opus), n);
    forall k | 0 <= k < DATA_SHARDS
      ensures |after[k]| == (|before[0]| / 16 + 1) * 16
    {
      assert |before[k]| == |before[0]|;
    }
  }

  lemma SequenceInGroup(n: nat, i: nat)
    ensures (n % 0x1_0000 + i) % 0x1_0000 == (n + i) % 0x1_0000
  {}

  lemma NothingReceived(rx: seq<Packet>)
    requires forall p | p in rx :: WellFormed(p)
    ensures rx == [] ==> Losses(Have(rx)) == DATA_SHARDS + FEC_SHARDS
  {
    SixLosses(Have(rx));
  }
}
