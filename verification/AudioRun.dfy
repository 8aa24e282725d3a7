/**
 Whole runs of the audio packetizer, of any length: what every packet carries, and what a client
 gets back when packets are lost on the way.
 */
module AudioRun {
  import opened Bytes
  import opened Fec
  import opened Audio
  import Crypto

  /** The state after a run of frames. */
  function After(frames: seq<Frame>, fecEnabled: bool): (s: State)
    ensures |s.shards| == DATA_SHARDS
  {
    if frames == [] then Initial(fecEnabled)
    else Next(After(frames[..|frames| - 1], fecEnabled), frames[|frames| - 1])
  }

  /** The packets sent for frame `n` of a run. */
  function Sent(frames: seq<Frame>, fecEnabled: bool, n: nat): seq<Packet>
    requires n < |frames|
  {
    Emit(After(frames[..n], fecEnabled), frames[n])
  }

  /** In range of the group memory of a packetizer that has seen `n` frames. */
  predicate Recent(m: nat, n: nat) { m < n <= m + DATA_SHARDS }

  /** The counter is the frame count modulo 2^16, and the four shards are the last four payloads. */
  ghost predicate Summarises(s: State, frames: seq<Frame>, fecEnabled: bool)
    requires |s.shards| == DATA_SHARDS
  {
    && s.fecEnabled == fecEnabled
    && s.sequenceNumber == |frames| % 0x1_0000
    && (forall m: nat | Recent(m, |frames|) :: s.shards[m % 4] == frames[m].payload)
    && (forall m: nat | Recent(m, |frames|) && m % 4 == 0 :: s.baseTimestamp == frames[m].timestamp)
  }

  /** Counting modulo 2^16 keeps the position within the group. */
  lemma GroupPosition(n: nat)
    ensures n % 0x1_0000 % 4 == n % 4
    ensures WrapAdd16(n % 0x1_0000, 1) == (n + 1) % 0x1_0000
  {}

  lemma DistinctPositions(m: nat, n: nat)
    requires m < n < m + DATA_SHARDS
    ensures m % 4 != n % 4
  {}

  lemma NextSummary(s: State, frames: seq<Frame>, frame: Frame, fecEnabled: bool)
    requires |s.shards| == DATA_SHARDS && Summarises(s, frames, fecEnabled)
    ensures Summarises(Next(s, frame), frames + [frame], fecEnabled)
  {
    var n, all := |frames|, frames + [frame];
    GroupPosition(n);
    forall m: nat | Recent(m, n + 1)
      ensures Next(s, frame).shards[m % 4] == all[m].payload
      ensures m % 4 == 0 ==> Next(s, frame).baseTimestamp == all[m].timestamp
    {
      if m < n {
        DistinctPositions(m, n);
        assert Recent(m, n);
      }
    }
  }

  lemma {:induction false} AfterClosed(frames: seq<Frame>, fecEnabled: bool)
    ensures Summarises(After(frames, fecEnabled), frames, fecEnabled)
  {
    var n := |frames|;
    if n > 0 {
      hide Summarises, Next;
      AfterClosed(frames[..n - 1], fecEnabled);
      NextSummary(After(frames[..n - 1], fecEnabled), frames[..n - 1], frames[n - 1], fecEnabled);
      assert frames[..n - 1] + [frames[n - 1]] == frames;
    }
  }

  /** The four payloads of the group that ends at frame `n`. */
  function GroupPayloads(frames: seq<Frame>, n: nat): (d: seq<seq<byte>>)
    requires DATA_SHARDS - 1 <= n < |frames|
    ensures |d| == DATA_SHARDS
  {
    seq(DATA_SHARDS, i requires 0 <= i < DATA_SHARDS => frames[n - (DATA_SHARDS - 1) + i].payload)
  }

  /** Whether frame `n` completes a group of four payloads of one length. */
  predicate CompletesGroup(frames: seq<Frame>, n: nat)
    requires n < |frames|
  {
    && n % 4 == DATA_SHARDS - 1
    && Uniform(GroupPayloads(frames, n), |GroupPayloads(frames, n)[0]|)
  }

  /** The parity packets of the group that frame `n` completes. */
  function GroupParity(frames: seq<Frame>, n: nat): (p: seq<Packet>)
    requires n < |frames| && CompletesGroup(frames, n)
    ensures |p| == FEC_SHARDS
  {
    seq(FEC_SHARDS, j requires 0 <= j < FEC_SHARDS => ParityPacket(frames, n, j))
  }

  function ParityPacket(frames: seq<Frame>, n: nat, j: nat): Packet
    requires n < |frames| && CompletesGroup(frames, n) && j < FEC_SHARDS
  {
    var first, d := n - (DATA_SHARDS - 1), GroupPayloads(frames, n);
    FecPacket(j, (n + 1 + j) % 0x1_0000, first % 0x1_0000, frames[first].timestamp, Parity(j, d, |d[0]|))
  }

  /**
   What is sent for the n-th frame of a run of any length, the counter's wraparound included: the
   data packet numbered n mod 65536, and, exactly when parity is on and the frame completes a group
   of four equal lengths, that group's two parity packets. They name the group's first sequence
   number and timestamp, carry the two numbers after the group, and leave the data numbering alone.
   */
  lemma SentClosed(frames: seq<Frame>, fecEnabled: bool, n: nat)
    requires n < |frames|
    ensures Sent(frames, fecEnabled, n) ==
            [DataPacket(n % 0x1_0000, frames[n])] +
            (if fecEnabled && CompletesGroup(frames, n) then GroupParity(frames, n) else [])
  {
    hide Parity, FecPacket, DataPacket, Uniform;
    AfterClosed(frames[..n], fecEnabled);
    GroupPosition(n);
    if n % 4 == DATA_SHARDS - 1 {
      GroupState(frames, fecEnabled, n);
      hide After, Next, GroupPayloads, Summarises;
      SequenceNumbers(n);
      if fecEnabled && CompletesGroup(frames, n) {
        assert GroupParity(frames, n) == [ParityPacket(frames, n, 0), ParityPacket(frames, n, 1)];
      }
    }
  }

  /** When parity is sent: two packets after every fourth frame of four payloads of one length. */
  lemma ParitySentExactly(frames: seq<Frame>, fecEnabled: bool, n: nat)
    requires n < |frames|
    ensures |Sent(frames, fecEnabled, n)|
            == if fecEnabled && n % 4 == 3
                  && |frames[n - 3].payload| == |frames[n - 2].payload| == |frames[n - 1].payload| == |frames[n].payload|
               then 3 else 1
  {
    hide Sent, DataPacket, ParityPacket;
    SentClosed(frames, fecEnabled, n);
    if n % 4 == 3 {
      var d := GroupPayloads(frames, n);
      assert d[0] == frames[n - 3].payload && d[1] == frames[n - 2].payload;
      assert d[2] == frames[n - 1].payload && d[3] == frames[n].payload;
    }
  }

  lemma SequenceNumbers(n: nat)
    requires n >= DATA_SHARDS - 1
    ensures WrapAdd16((n + 1) % 0x1_0000, 1) == (n + 2) % 0x1_0000
    ensures WrapAdd16((n + 1) % 0x1_0000, -DATA_SHARDS) == (n - (DATA_SHARDS - 1)) % 0x1_0000
  {}

  /** What the parity packets are built from, when frame `n` completes a group. */
  lemma GroupState(frames: seq<Frame>, fecEnabled: bool, n: nat)
    requires n < |frames| && n % 4 == DATA_SHARDS - 1
    ensures var t := Next(After(frames[..n], fecEnabled), frames[n]);
            && t.shards == GroupPayloads(frames, n)
            && t.baseTimestamp == frames[n - (DATA_SHARDS - 1)].timestamp
            && t.sequenceNumber == (n + 1) % 0x1_0000
  {
    hide After, Next, Summarises;
    AfterClosed(frames[..n], fecEnabled);
    NextSummary(After(frames[..n], fecEnabled), frames[..n], frames[n], fecEnabled);
    SummaryOfGroup(Next(After(frames[..n], fecEnabled), frames[n]), frames, frames[..n] + [frames[n]], fecEnabled, n);
  }

  lemma SummaryOfGroup(t: State, frames: seq<Frame>, upTo: seq<Frame>, fecEnabled: bool, n: nat)
    requires n < |frames| && n % 4 == DATA_SHARDS - 1 && upTo == frames[..n + 1]
    requires |t.shards| == DATA_SHARDS && Summarises(t, upTo, fecEnabled)
    ensures t.shards == GroupPayloads(frames, n)
    ensures t.baseTimestamp == frames[n - (DATA_SHARDS - 1)].timestamp
    ensures t.sequenceNumber == (n + 1) % 0x1_0000
  {
    var first := n - (DATA_SHARDS - 1);
    forall i | 0 <= i < DATA_SHARDS
      ensures t.shards[i] == frames[first + i].payload
    {
      PositionFromEnd(n, i);
      assert Recent(first + i, n + 1);
    }
    PositionFromEnd(n, 0);
    assert Recent(first, n + 1);
  }

  lemma PositionFromEnd(n: nat, i: nat)
    requires n % 4 == DATA_SHARDS - 1 && i < DATA_SHARDS
    ensures (n - (DATA_SHARDS - 1) + i) % 4 == i
  {}
}
