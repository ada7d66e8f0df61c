/**
 * packages/calling/src/audio-player.ts and audio-bridge.ts: who numbers the packets of one outgoing
 * stream while a prompt player and a live bridge take turns on it.
 */
module RtpHandOff {
  import opened Bytes

  const SAMPLES_PER_FRAME := 960

  datatype Packet = Packet(seqNo: int, timestamp: int, payload: seq<byte>)

  /** What getSequence and getLastCallerSeq report, and setSequence and seedSequence take. */
  datatype Position = Position(seqNo: int, timestamp: int)

  function Min(a: nat, b: nat): nat { if a < b then a else b }

  // ---------------------------------------------------------------- the player

  /** Frames numbered one by one from a first number and timestamp. */
  function Played(first: Position, frames: seq<seq<byte>>): seq<Packet> {
    seq(|frames|, i requires 0 <= i < |frames| =>
      Packet(first.seqNo + i, first.timestamp + SAMPLES_PER_FRAME * i, frames[i]))
  }

  class AudioPlayer {
    var sequenceNumber: int
    var timestamp: int

    constructor ()
      ensures sequenceNumber == 0 && timestamp == 0
    {
      sequenceNumber, timestamp := 0, 0;
    }

    method SetSequence(at: Position)
      modifies this
      ensures sequenceNumber == at.seqNo + 1 && timestamp == at.timestamp + SAMPLES_PER_FRAME
    {
      sequenceNumber := at.seqNo + 1;
      timestamp := at.timestamp + SAMPLES_PER_FRAME;
    }

    function GetSequence(): Position
      reads this
    {
      Position(sequenceNumber, timestamp)
    }

    /** The stop flag is seen after `turns` packets, if the file is that long. */
    method PlayFile(frames: seq<seq<byte>>, turns: nat) returns (sent: seq<Packet>, packetCount: nat)
      modifies this
      ensures packetCount == Min(turns, |frames|)
      ensures sent == Played(old(GetSequence()), frames[..packetCount])
      ensures |sent| == packetCount && forall i :: 0 <= i < packetCount ==>
        sent[i] == Packet(old(sequenceNumber) + i, old(timestamp) + 960 * i, frames[i])
      ensures GetSequence() ==
        Position(old(sequenceNumber) + packetCount, old(timestamp) + 960 * packetCount)
    {
      sent, packetCount := [], 0;
      while packetCount < |frames| && packetCount < turns
        invariant packetCount <= Min(turns, |frames|)
        invariant sent == Played(old(GetSequence()), frames[..packetCount])
        invariant GetSequence() ==
          Position(old(sequenceNumber) + packetCount, old(timestamp) + SAMPLES_PER_FRAME * packetCount)
      {
        sent := sent + [Packet(sequenceNumber, timestamp, frames[packetCount])];
        sequenceNumber := sequenceNumber + 1;
        timestamp := timestamp + SAMPLES_PER_FRAME;
        packetCount := packetCount + 1;
      }
    }
  }

  // ---------------------------------------------------------------- the bridge

  /** Renumbered to follow `at`, keeping the distance to the base; untouched unless a number was seeded. */
  function BridgedOne(at: Position, base: Position, packet: Packet): Packet {
    if at.seqNo > 0
    then Packet(at.seqNo + (packet.seqNo - base.seqNo) + 1,
                at.timestamp + (packet.timestamp - base.timestamp) + SAMPLES_PER_FRAME, packet.payload)
    else packet
  }

  function Bridged(at: Position, base: Position, input: seq<Packet>): seq<Packet> {
    seq(|input|, i requires 0 <= i < |input| => BridgedOne(at, base, input[i]))
  }

  function Payloads(packets: seq<Packet>): seq<seq<byte>> {
    if packets == [] then []
    else
      var last := packets[|packets| - 1];
      Payloads(packets[..|packets| - 1]) + if last.payload == [] then [] else [last.payload]
  }

  function Where(p: Packet): Position { Position(p.seqNo, p.timestamp) }

  /** Whether a bridge still waits for the first tracked packet, what it measures from, and the last one it sent. */
  datatype Memory = Memory(first: bool, base: Position, last: Position)

  /** What a bridge sends and remembers when it has tracked some packets from an earlier memory on. */
  ghost predicate Tracked(at: Position, start: Memory, input: seq<Packet>, sent: seq<Packet>, now: Memory) {
    && now.base == (if start.first && input != [] then Where(input[0]) else start.base)
    && now.first == (start.first && input == [])
    && sent == Bridged(at, now.base, input)
    && now.last == if sent == [] then start.last else Where(sent[|sent| - 1])
  }

  class AudioBridge {
    var lastCallerSeq: int
    var lastCallerTS: int
    var seqOffset: int
    var tsOffset: int
    var firstAgentSeq: bool
    var agentBaseSeq: int
    var agentBaseTS: int

    constructor ()
      ensures Offset() == Position(0, 0) == GetLastCallerSeq() && firstAgentSeq
    {
      lastCallerSeq, lastCallerTS, seqOffset, tsOffset := 0, 0, 0, 0;
      firstAgentSeq, agentBaseSeq, agentBaseTS := true, 0, 0;
    }

    function Offset(): Position
      reads this
    {
      Position(seqOffset, tsOffset)
    }

    function Base(): Position
      reads this
    {
      Position(agentBaseSeq, agentBaseTS)
    }

    function GetLastCallerSeq(): Position
      reads this
    {
      Position(lastCallerSeq, lastCallerTS)
    }

    method SeedSequence(at: Position)
      modifies this`seqOffset, this`tsOffset, this`firstAgentSeq
      ensures Offset() == at && firstAgentSeq
    {
      seqOffset, tsOffset, firstAgentSeq := at.seqNo, at.timestamp, true;
    }

    /** One turn of the forwarding loop. */
    method ForwardOne(packet: Packet, trackSeq: bool) returns (finalPacket: Packet)
      modifies this
      ensures !trackSeq ==> finalPacket == packet && unchanged(this)
      ensures Offset() == old(Offset())
      ensures trackSeq ==>
        && Base() == (if old(firstAgentSeq) then Where(packet) else old(Base())) && !firstAgentSeq
        && finalPacket == BridgedOne(Offset(), Base(), packet) && GetLastCallerSeq() == Where(finalPacket)
    {
      finalPacket := packet;
      if trackSeq {
        if firstAgentSeq {
          agentBaseSeq, agentBaseTS, firstAgentSeq := packet.seqNo, packet.timestamp, false;
        }
        if seqOffset > 0 {
          finalPacket := Packet(seqOffset + (packet.seqNo - agentBaseSeq) + 1,
                                tsOffset + (packet.timestamp - agentBaseTS) + SAMPLES_PER_FRAME, packet.payload);
          lastCallerSeq, lastCallerTS := finalPacket.seqNo, finalPacket.timestamp;
        } else {
          lastCallerSeq, lastCallerTS := packet.seqNo, packet.timestamp;
        }
      }
    }

    ghost function Remembered(): Memory
      reads this
    {
      Memory(firstAgentSeq, Base(), GetLastCallerSeq())
    }

    /**
     * One direction: the source ends, or the stop flag is seen, after the packets of `input`. The payloads
     * that are not empty go to the recorder, if there is one.
     */
    method Forward(input: seq<Packet>, trackSeq: bool, recording: bool)
      returns (sent: seq<Packet>, recorded: seq<seq<byte>>)
      modifies this
      ensures recorded == if recording then Payloads(input) else []
      ensures !trackSeq ==> sent == input && unchanged(this)
      ensures Offset() == old(Offset())
      ensures trackSeq ==> Tracked(Offset(), old(Remembered()), input, sent, Remembered())
    {
      sent, recorded := [], [];
      for i := 0 to |input|
        invariant recorded == if recording then Payloads(input[..i]) else []
        invariant !trackSeq ==> sent == input[..i] && unchanged(this)
        invariant Offset() == old(Offset())
        invariant trackSeq ==> Tracked(Offset(), old(Remembered()), input[..i], sent, Remembered())
      {
        hide BridgedOne, Tracked, Payloads;
        assert input[..i + 1] == input[..i] + [input[i]];
        ghost var was := Remembered();
        var finalPacket := ForwardOne(input[i], trackSeq);
        OneMorePayload(input[..i], input[i]);
        if trackSeq { TrackedOne(Offset(), old(Remembered()), was, Remembered(), input[..i], sent, input[i]); }
        SamePayload(Offset(), Base(), input[i]);
        if recording && |finalPacket.payload| > 0 {
          recorded := recorded + [finalPacket.payload];
        }
        sent := sent + [finalPacket];
      }
      assert input[..|input|] == input;
    }
  }

  lemma OneMorePayload(input: seq<Packet>, last: Packet)
    ensures Payloads(input + [last]) == Payloads(input) + if last.payload == [] then [] else [last.payload]
  {
    assert (input + [last])[..|input|] == input;
  }

  lemma TrackedOne(
    at: Position, start: Memory, was: Memory, now: Memory, input: seq<Packet>, sent: seq<Packet>, packet: Packet)
    requires Tracked(at, start, input, sent, was)
    requires now.base == (if was.first then Where(packet) else was.base) && !now.first
    requires now.last == Where(BridgedOne(at, now.base, packet))
    ensures Tracked(at, start, input + [packet], sent + [BridgedOne(at, now.base, packet)], now)
  {
    hide BridgedOne, Where;
  }

  /** What a tracked direction sends, packet by packet, and what is recorded of it. */
  lemma TrackedMeans(at: Position, start: Memory, input: seq<Packet>, sent: seq<Packet>, now: Memory, i: nat)
    requires Tracked(at, start, input, sent, now) && i < |input|
    ensures |sent| == |input|
    ensures var base := if start.first then Position(input[0].seqNo, input[0].timestamp) else start.base;
      sent[i] ==
        if at.seqNo <= 0 then input[i]
        else Packet(at.seqNo + (input[i].seqNo - base.seqNo) + 1,
                    at.timestamp + (input[i].timestamp - base.timestamp) + 960, input[i].payload)
    ensures now.last.seqNo == sent[|sent| - 1].seqNo && now.last.timestamp == sent[|sent| - 1].timestamp
  {
  }

  lemma OnePayload(p: Packet)
    ensures Payloads([]) == [] && Payloads([p]) == if p.payload == [] then [] else [p.payload]
  {
    assert [p][..0] == [];
  }

  /** Every payload that is not empty is recorded, in order. */
  lemma {:induction false} PayloadsRecorded(a: seq<Packet>, b: seq<Packet>)
    ensures Payloads(a + b) == Payloads(a) + Payloads(b)
  {
    if b == [] {
      assert a + b == a;
    } else {
      hide Payloads;
      var rest, last := b[..|b| - 1], b[|b| - 1];
      var x := if last.payload == [] then [] else [last.payload];
      assert b == rest + [last];
      assert a + b == (a + rest) + [last];
      PayloadsRecorded(a, rest);
      OneMorePayload(a + rest, last);
      OneMorePayload(rest, last);
      Joined(Payloads(a), Payloads(rest), x);
    }
  }

  lemma Joined(a: seq<seq<byte>>, b: seq<seq<byte>>, c: seq<seq<byte>>)
    ensures (a + b) + c == a + (b + c)
  {
  }

  lemma SamePayload(at: Position, base: Position, packet: Packet)
    ensures BridgedOne(at, base, packet).payload == packet.payload
  {
  }

  // ---------------------------------------------------------------- taking turns

  /** One turn on the stream: a new player given frames to play, or a new bridge given packets to forward. */
  datatype Segment = Play(frames: seq<seq<byte>>) | Bridge(input: seq<Packet>)

  /** What a segment sends when it is started from the position the one before it reported. */
  function Emit(at: Position, segment: Segment): seq<Packet> {
    match segment
    case Play(frames) => Played(Position(at.seqNo + 1, at.timestamp + SAMPLES_PER_FRAME), frames)
    case Bridge(input) => if input == [] then [] else Bridged(at, Where(input[0]), input)
  }

  /** What it reports then: the player the next free number, the bridge the last number sent. */
  function Report(at: Position, segment: Segment): Position {
    match segment
    case Play(frames) => Position(at.seqNo + 1 + |frames|, at.timestamp + SAMPLES_PER_FRAME * (1 + |frames|))
    case Bridge(input) => if input == [] then Position(0, 0) else Where(Emit(at, segment)[|input| - 1])
  }

  function EmitAll(at: Position, segments: seq<Segment>): seq<Packet>
    decreases |segments|
  {
    if segments == [] then [] else Emit(at, segments[0]) + EmitAll(Report(at, segments[0]), segments[1..])
  }

  ghost predicate Increasing(packets: seq<Packet>) {
    forall i, j :: 0 <= i < j < |packets| ==>
      packets[i].seqNo < packets[j].seqNo && packets[i].timestamp < packets[j].timestamp
  }

  /** A bridge hears at least one packet, and hears them in order. */
  ghost predicate Healthy(segment: Segment) {
    segment.Bridge? ==> segment.input != [] && Increasing(segment.input)
  }

  ghost predicate After(at: Position, packets: seq<Packet>) {
    forall p :: p in packets ==> at.seqNo < p.seqNo && at.timestamp < p.timestamp
  }

  ghost predicate UpTo(at: Position, packets: seq<Packet>) {
    forall p :: p in packets ==> p.seqNo <= at.seqNo && p.timestamp <= at.timestamp
  }

  lemma PlayContinues(at: Position, frames: seq<seq<byte>>)
    ensures var sent, next := Emit(at, Play(frames)), Report(at, Play(frames));
      && Increasing(sent) && After(at, sent) && UpTo(next, sent)
      && at.seqNo < next.seqNo && at.timestamp < next.timestamp
  {
  }

  lemma BridgeContinues(at: Position, input: seq<Packet>)
    requires at.seqNo > 0 && input != [] && Increasing(input)
    ensures var sent, next := Emit(at, Bridge(input)), Report(at, Bridge(input));
      && Increasing(sent) && After(at, sent) && UpTo(next, sent)
      && at.seqNo < next.seqNo && at.timestamp < next.timestamp
  {
    var sent := Emit(at, Bridge(input));
    assert forall i :: 0 <= i < |input| ==> sent[i] == BridgedOne(at, Where(input[0]), input[i]);
    hide Bridged;
  }

  lemma SegmentContinues(at: Position, segment: Segment)
    requires at.seqNo > 0 && Healthy(segment)
    ensures var sent, next := Emit(at, segment), Report(at, segment);
      && Increasing(sent) && After(at, sent) && UpTo(next, sent)
      && at.seqNo < next.seqNo && at.timestamp < next.timestamp
  {
    hide Emit, Report, Increasing, After, UpTo;
    match segment
    case Play(frames) => PlayContinues(at, frames);
    case Bridge(input) => BridgeContinues(at, input);
  }

  lemma JoinIncreasing(a: seq<Packet>, b: seq<Packet>, at: Position)
    requires Increasing(a) && Increasing(b) && UpTo(at, a) && After(at, b)
    ensures Increasing(a + b)
  {
    forall i, j | 0 <= i < j < |a + b|
      ensures (a + b)[i].seqNo < (a + b)[j].seqNo && (a + b)[i].timestamp < (a + b)[j].timestamp
    {
      if i < |a| <= j { assert (a + b)[i] in a && (a + b)[j] in b; }
    }
  }

  /** However the turns alternate, numbers and timestamps strictly increase over the whole stream. */
  lemma {:induction false} StreamIncreases(at: Position, segments: seq<Segment>)
    requires at.seqNo > 0 && forall s :: s in segments ==> Healthy(s)
    ensures Increasing(EmitAll(at, segments)) && After(at, EmitAll(at, segments))
    decreases |segments|
  {
    hide Emit, Report, Increasing, Healthy;
    if segments == [] {
      NothingIncreases();
    } else {
      var next := Report(at, segments[0]);
      SegmentContinues(at, segments[0]);
      StreamIncreases(next, segments[1..]);
      JoinIncreasing(Emit(at, segments[0]), EmitAll(next, segments[1..]), next);
    }
  }

  lemma NothingIncreases()
    ensures Increasing([])
  {
  }

  /** The sounds of the segments: frames played, and payloads heard. */
  function Sounds(segments: seq<Segment>): seq<seq<byte>> {
    if segments == [] then []
    else (match segments[0]
          case Play(frames) => frames
          case Bridge(input) => seq(|input|, i requires 0 <= i < |input| => input[i].payload))
         + Sounds(segments[1..])
  }

  /** The stream carries every sound of every segment once, in order, and nothing else. */
  lemma {:induction false} StreamCarriesSounds(at: Position, segments: seq<Segment>)
    ensures |EmitAll(at, segments)| == |Sounds(segments)|
    ensures forall i :: 0 <= i < |Sounds(segments)| ==> EmitAll(at, segments)[i].payload == Sounds(segments)[i]
    decreases |segments|
  {
    if segments != [] {
      var sent, next := Emit(at, segments[0]), Report(at, segments[0]);
      EmitOne(at, segments);
      StreamCarriesSounds(next, segments[1..]);
      SegmentCarries(at, segments[0]);
    }
  }

  lemma SegmentCarries(at: Position, segment: Segment)
    ensures var sent := Emit(at, segment);
      match segment
      case Play(frames) => |sent| == |frames| && forall i :: 0 <= i < |frames| ==> sent[i].payload == frames[i]
      case Bridge(input) => |sent| == |input| && forall i :: 0 <= i < |input| ==> sent[i].payload == input[i].payload
  {
  }

  method RunSegment(at: Position, segment: Segment) returns (sent: seq<Packet>, next: Position)
    ensures sent == Emit(at, segment) && next == Report(at, segment)
  {
    match segment
    case Play(frames) =>
      var player := new AudioPlayer();
      player.SetSequence(at);
      var count;
      sent, count := player.PlayFile(frames, |frames|);
      assert frames[..|frames|] == frames;
      next := player.GetSequence();
    case Bridge(input) =>
      var bridge := new AudioBridge();
      bridge.SeedSequence(at);
      var forwarded, _ := bridge.Forward(input, true, false);
      sent := forwarded;
      next := bridge.GetLastCallerSeq();
  }

  /** The same for the two classes: every hand-off passes on what the previous object reported. */
  method RunSegments(start: Position, segments: seq<Segment>) returns (sent: seq<Packet>)
    ensures sent == EmitAll(start, segments)
    ensures start.seqNo > 0 && (forall s :: s in segments ==> Healthy(s)) ==> Increasing(sent)
  {
    hide EmitAll, Emit, Report;
    sent := [];
    var at := start;
    for i := 0 to |segments|
      invariant sent + EmitAll(at, segments[i..]) == EmitAll(start, segments)
    {
      EmitOne(at, segments[i..]);
      assert segments[i..][0] == segments[i] && segments[i..][1..] == segments[i + 1..];
      var more, next := RunSegment(at, segments[i]);
      assert sent + (more + EmitAll(next, segments[i + 1..])) == (sent + more) + EmitAll(next, segments[i + 1..]);
      sent, at := sent + more, next;
    }
    NothingSent(at);
    if start.seqNo > 0 && (forall s :: s in segments ==> Healthy(s)) { StreamIncreases(start, segments); }
  }

  lemma NothingSent(at: Position)
    ensures EmitAll(at, []) == []
  {
  }

  lemma EmitOne(at: Position, segments: seq<Segment>)
    requires segments != []
    ensures EmitAll(at, segments) == Emit(at, segments[0]) + EmitAll(Report(at, segments[0]), segments[1..])
  {
  }

  /** The bridge keeps every distance of its input, losses and silences included. */
  lemma BridgeKeepsGaps(at: Position, input: seq<Packet>, i: nat, j: nat)
    requires i < |input| && j < |input|
    ensures var sent := Emit(at, Bridge(input));
      && |sent| == |input| && sent[i].payload == input[i].payload
      && sent[j].seqNo - sent[i].seqNo == input[j].seqNo - input[i].seqNo
      && sent[j].timestamp - sent[i].timestamp == input[j].timestamp - input[i].timestamp
  {
  }

  /** A hand-off after a player leaves one number unused, because both sides step past it; after a bridge none. */
  lemma HandOffGap(at: Position, a: Segment, b: Segment)
    requires at.seqNo > 0 && Healthy(a) && Emit(at, a) != [] && Emit(Report(at, a), b) != []
    ensures var last, first := Emit(at, a)[|Emit(at, a)| - 1], Emit(Report(at, a), b)[0];
      var steps := if a.Play? then 2 else 1;
      first.seqNo == last.seqNo + steps && first.timestamp == last.timestamp + 960 * steps
  {
    hide Increasing;
    var next := Report(at, a);
    SegmentContinues(at, a);
    FirstSent(next, b);
    if a.Bridge? { assert next == Where(Emit(at, a)[|Emit(at, a)| - 1]); }
  }

  /** From a positive position the first packet sent is one step on. */
  lemma FirstSent(at: Position, segment: Segment)
    requires at.seqNo > 0 && Emit(at, segment) != []
    ensures var first := Emit(at, segment)[0];
      first.seqNo == at.seqNo + 1 && first.timestamp == at.timestamp + SAMPLES_PER_FRAME
  {
  }

  /** A bridge continues the stream, whatever it hears, exactly when the number it is seeded with is positive. */
  lemma BridgeContinuesIff(at: Position)
    ensures (forall input :: input != [] && Increasing(input) ==> After(at, Emit(at, Bridge(input)))) <==> at.seqNo > 0
  {
    if at.seqNo > 0 {
      forall input | input != [] && Increasing(input) ensures After(at, Emit(at, Bridge(input))) {
        SegmentContinues(at, Bridge(input));
      }
    } else {
      var heard := [Packet(at.seqNo, at.timestamp, [])];
      assert Emit(at, Bridge(heard)) == heard;
      assert Increasing(heard) && heard[0] in Emit(at, Bridge(heard));
      assert !After(at, Emit(at, Bridge(heard)));
    }
  }

  /**
   * A player started from what a bridge reported continues the stream exactly if the bridge heard a
   * packet; after a bridge that heard nothing it starts over at one.
   */
  lemma PlayerContinuesExactly(at: Position, input: seq<Packet>, frame: seq<byte>)
    requires at.seqNo > 0 && Increasing(input)
    ensures After(at, EmitAll(at, [Bridge(input), Play([frame])])) <==> input != []
    ensures input == [] ==> EmitAll(at, [Bridge(input), Play([frame])]) == [Packet(1, 960, frame)]
  {
    var segments := [Bridge(input), Play([frame])];
    if input != [] {
      StreamIncreases(at, segments);
    } else {
      EmitOne(at, segments);
      assert segments[1..] == [Play([frame])];
      EmitOne(Position(0, 0), [Play([frame])]);
      assert EmitAll(Report(Position(0, 0), Play([frame])), [Play([frame])][1..]) == [];
      var sent := EmitAll(at, segments);
      assert sent == [Packet(1, SAMPLES_PER_FRAME, frame)];
      assert sent[0] in sent;
    }
  }
}
