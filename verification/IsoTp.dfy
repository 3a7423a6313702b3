/**
 ISO-TP segmentation and reassembly over CAN FD (transport/can/isotp_adapter.py), after the protocol
 control information of section 9.6 of ISO 15765-2:2016.
 */
module IsoTp {
  import opened Base

  const MAX_CAN_FD_DATA := 64
  const SF_MAX_PAYLOAD := 62
  const FF_MAX_PAYLOAD := 62
  const CF_MAX_PAYLOAD := 63
  const MAX_LENGTH := 0xFFF

  datatype SegmentError = PayloadTooLarge

  // ----- sender side

  function SingleFrame(payload: Bytes): Bytes
    requires |payload| <= SF_MAX_PAYLOAD
  {
    if |payload| <= 0x0F then [|payload|] + payload else [0x00, |payload|] + payload
  }

  function FirstFrame(total: nat, payload: Bytes): Bytes
    requires total <= MAX_LENGTH
  {
    [0x10 + total / 256, total % 256] + payload
  }

  function ConsecutiveFrame(sequence: nat, payload: Bytes): Bytes {
    [0x20 + sequence % 16] + payload
  }

  /** The data of the next consecutive frame. */
  function NextChunk(remaining: Bytes): Bytes {
    if |remaining| <= CF_MAX_PAYLOAD then remaining else remaining[..CF_MAX_PAYLOAD]
  }

  function AfterChunk(remaining: Bytes): Bytes {
    if |remaining| <= CF_MAX_PAYLOAD then [] else remaining[CF_MAX_PAYLOAD..]
  }

  function ConsecutiveFrames(remaining: Bytes, sequence: nat): seq<Bytes>
    decreases |remaining|
  {
    if remaining == [] then []
    else
      [ConsecutiveFrame(sequence, NextChunk(remaining))]
      + ConsecutiveFrames(AfterChunk(remaining), (sequence + 1) % 16)
  }

  function Frames(payload: Bytes): Result<seq<Bytes>, SegmentError> {
    if |payload| <= SF_MAX_PAYLOAD then Ok([SingleFrame(payload)])
    else if |payload| > MAX_LENGTH then Err(PayloadTooLarge)
    else Ok([FirstFrame(|payload|, payload[..FF_MAX_PAYLOAD])] + ConsecutiveFrames(payload[FF_MAX_PAYLOAD..], 1))
  }

  method Segment(payload: Bytes) returns (r: Result<seq<Bytes>, SegmentError>)
    ensures r == Frames(payload)
  {
    if |payload| <= SF_MAX_PAYLOAD {
      return Ok([SingleFrame(payload)]);
    }
    if |payload| > MAX_LENGTH {
      return Err(PayloadTooLarge);
    }
    var frames := [FirstFrame(|payload|, payload[..FF_MAX_PAYLOAD])];
    var remaining, sequence := payload[FF_MAX_PAYLOAD..], 1;
    while remaining != []
      invariant 0 <= sequence < 16
      invariant Frames(payload).value == frames + ConsecutiveFrames(remaining, sequence)
      decreases |remaining|
    {
      frames := frames + [ConsecutiveFrame(sequence, NextChunk(remaining))];
      remaining := AfterChunk(remaining);
      sequence := (sequence + 1) % 16;
    }
    assert frames + [] == frames;
    return Ok(frames);
  }

  // ----- flow control frames

  const FLOW_STATUS_CONTINUE: byte := 0
  const FLOW_STATUS_WAIT: byte := 1
  const FLOW_STATUS_OVERFLOW: byte := 2

  datatype FlowControl = FlowControl(status: byte, blockSize: byte, stminSeconds: real)

  function BuildFlowControl(status: nat, blockSize: nat, stmin: nat): Bytes {
    [0x30 + status % 16, blockSize % 256, stmin % 256]
  }

  function ParseFlowControl(frame: Bytes): Option<FlowControl> {
    if |frame| < 3 || frame[0] / 16 != 0x3 then None
    else
      var seconds :=
        if frame[2] <= 0x7F then frame[2] as real / 1000.0
        else if 0xF1 <= frame[2] <= 0xF9 then (frame[2] - 0xF0) as real / 10000.0
        else 0.0;
      Some(FlowControl(frame[0] % 16, frame[1], seconds))
  }

  // ----- receiver side

  datatype Reassembly = Reassembly(
    expectedLength: Option<nat>, buffer: Bytes, nextSequence: nat, blockSize: nat, stmin: nat,
    framesUntilFlowControl: int, pendingFlowControl: Option<Bytes>)

  function Fresh(blockSize: nat, stmin: nat): Reassembly {
    Reassembly(None, [], 1, blockSize, stmin, 0, None)
  }

  function Idle(s: Reassembly): Reassembly {
    Fresh(s.blockSize, s.stmin)
  }

  function Grant(s: Reassembly): Bytes {
    BuildFlowControl(FLOW_STATUS_CONTINUE, s.blockSize, s.stmin)
  }

  function FeedSingle(s: Reassembly, frame: Bytes): (Reassembly, Option<Bytes>)
    requires frame != []
  {
    var short := frame[0] % 16;
    if short == 0 && |frame| < 2 then (s, None)
    else
      var start: nat, length: nat := if short == 0 then 2 else 1, if short == 0 then frame[1] else short;
      if |frame| < start + length then (s, None) else (Idle(s), Some(frame[start..start + length]))
  }

  function FeedFirst(s: Reassembly, frame: Bytes): (Reassembly, Option<Bytes>)
    requires frame != []
  {
    if |frame| < 2 then (s, None)
    else
      var length := 256 * (frame[0] as int % 16) + frame[1] as int;
      if length == 0 then (Idle(s), None)
      else if |frame| - 2 >= length then (Idle(s), Some(frame[2..][..length]))
      else (s.(expectedLength := Some(length), buffer := frame[2..], nextSequence := 1,
               framesUntilFlowControl := s.blockSize, pendingFlowControl := Some(Grant(s))), None)
  }

  function FeedConsecutive(s: Reassembly, frame: Bytes): (Reassembly, Option<Bytes>)
    requires frame != []
  {
    if s.expectedLength.None? then (s, None)
    else if frame[0] % 16 != s.nextSequence || |frame| < 2 then (Idle(s), None)
    else
      var buffer := s.buffer + frame[1..];
      if |buffer| >= s.expectedLength.value then (Idle(s), Some(buffer[..s.expectedLength.value]))
      else
        var left := if s.blockSize == 0 then s.framesUntilFlowControl else s.framesUntilFlowControl - 1;
        var next := s.(buffer := buffer, nextSequence := (s.nextSequence + 1) % 16, framesUntilFlowControl := left);
        if s.blockSize != 0 && left == 0
        then (next.(pendingFlowControl := Some(Grant(s)), framesUntilFlowControl := s.blockSize), None)
        else (next, None)
  }

  /** The reassembler after one frame, and the payload it completed, if any. */
  function AfterFrame(s: Reassembly, frame: Bytes): (Reassembly, Option<Bytes>) {
    if frame == [] then (s, None)
    else match frame[0] / 16
      case 0 => FeedSingle(s, frame)
      case 1 => FeedFirst(s, frame)
      case 2 => FeedConsecutive(s, frame)
      case _ => (s, None)
  }

  class IsoTpReassembler {
    var expectedLength: Option<nat>
    var buffer: Bytes
    var nextSequence: nat
    const blockSize: nat
    const stmin: nat
    var framesUntilFlowControl: int
    var pendingFlowControl: Option<Bytes>

    ghost function State(): Reassembly
      reads this
    {
      Reassembly(expectedLength, buffer, nextSequence, blockSize, stmin, framesUntilFlowControl, pendingFlowControl)
    }

    constructor (blockSize: nat, stmin: nat)
      ensures State() == Fresh(blockSize, stmin)
    {
      this.blockSize, this.stmin := blockSize, stmin;
      expectedLength, buffer, nextSequence, framesUntilFlowControl, pendingFlowControl := None, [], 1, 0, None;
    }

    method Feed(frame: Bytes) returns (payload: Option<Bytes>)
      modifies this
      ensures (State(), payload) == AfterFrame(old(State()), frame)
    {
      if frame == [] {
        return None;
      }
      var frameType := frame[0] / 16;
      if frameType == 0 {
        payload := OnSingleFrame(frame);
      } else if frameType == 1 {
        payload := OnFirstFrame(frame);
      } else if frameType == 2 {
        payload := OnConsecutiveFrame(frame);
      } else {
        payload := None;
      }
    }

    method OnSingleFrame(frame: Bytes) returns (payload: Option<Bytes>)
      requires frame != []
      modifies this
      ensures (State(), payload) == FeedSingle(old(State()), frame)
    {
      var length: nat, start: nat := frame[0] % 16, 1;
      if length == 0 {
        if |frame| < 2 {
          return None;
        }
        length, start := frame[1], 2;
      }
      if |frame| < start + length {
        return None;
      }
      Reset();
      return Some(frame[start..start + length]);
    }

    method OnFirstFrame(frame: Bytes) returns (payload: Option<Bytes>)
      requires frame != []
      modifies this
      ensures (State(), payload) == FeedFirst(old(State()), frame)
    {
      if |frame| < 2 {
        return None;
      }
      var length := 256 * (frame[0] as int % 16) + frame[1] as int;
      expectedLength := Some(length);
      if length == 0 {
        Reset();
        return None;
      }
      buffer := frame[2..];
      nextSequence := 1;
      framesUntilFlowControl := blockSize;
      pendingFlowControl := Some(BuildFlowControl(FLOW_STATUS_CONTINUE, blockSize, stmin));
      if |buffer| >= length {
        payload := Some(buffer[..length]);
        Reset();
        return;
      }
      return None;
    }

    method OnConsecutiveFrame(frame: Bytes) returns (payload: Option<Bytes>)
      requires frame != []
      modifies this
      ensures (State(), payload) == FeedConsecutive(old(State()), frame)
    {
      if expectedLength.None? {
        return None;
      }
      if frame[0] % 16 != nextSequence || |frame| < 2 {
        Reset();
        return None;
      }
      buffer := buffer + frame[1..];
      nextSequence := (nextSequence + 1) % 16;
      if blockSize != 0 {
        framesUntilFlowControl := framesUntilFlowControl - 1;
      }
      if |buffer| < expectedLength.value {
        if blockSize != 0 && framesUntilFlowControl == 0 {
          pendingFlowControl := Some(BuildFlowControl(FLOW_STATUS_CONTINUE, blockSize, stmin));
          framesUntilFlowControl := blockSize;
        }
        return None;
      }
      payload := Some(buffer[..expectedLength.value]);
      Reset();
    }

    method PopFlowControlFrame() returns (frame: Option<Bytes>)
      modifies this
      ensures frame == old(State()).pendingFlowControl
      ensures State() == old(State()).(pendingFlowControl := None)
    {
      frame := pendingFlowControl;
      pendingFlowControl := None;
    }

    method Reset()
      modifies this
      ensures State() == Idle(old(State()))
    {
      expectedLength, buffer, nextSequence, framesUntilFlowControl, pendingFlowControl := None, [], 1, 0, None;
    }
  }

  // ----- what each frame does, whoever sent it

  /** The sender learns what the receiver asked for: milliseconds, tenths of one, or no pause for reserved values. */
  lemma FlowControlRoundTrip(status: nat, blockSize: nat, stmin: nat)
    requires status < 16 && blockSize < 256 && stmin < 256
    ensures var p := ParseFlowControl(BuildFlowControl(status, blockSize, stmin));
      && p.Some? && p.value.status == status && p.value.blockSize == blockSize
      && (stmin <= 0x7F ==> 1000.0 * p.value.stminSeconds == stmin as real)
      && (0xF1 <= stmin <= 0xF9 ==> 10000.0 * p.value.stminSeconds == (stmin - 0xF0) as real)
      && (stmin in {0x80, 0xF0, 0xFA, 0xFF} ==> p.value.stminSeconds == 0.0)
  {
  }

  /** Flow control, unknown and empty frames leave a reassembly alone. */
  lemma OtherFramesAreIgnored(s: Reassembly, frame: Bytes)
    ensures frame == [] || frame[0] >= 0x30 ==> AfterFrame(s, frame) == (s, None)
    ensures frame != [] && frame[0] >= 0x40 ==> ParseFlowControl(frame) == None
    ensures |frame| >= 3 && 0x30 <= frame[0] < 0x40 ==> ParseFlowControl(frame).Some?
  {
  }

  /** A single frame delivers its data and ends what was under way, or it is cut short and ignored. */
  lemma SingleFrameDecides(s: Reassembly, frame: Bytes)
    requires |frame| >= 2 && frame[0] < 0x10
    ensures var start, length := if frame[0] == 0 then 2 else 1, if frame[0] == 0 then frame[1] else frame[0];
      AfterFrame(s, frame) == if start + length <= |frame| then (Idle(s), Some(frame[start..start + length]))
                              else (s, None)
  {
  }

  lemma ShortFramesAreIgnored(s: Reassembly, frame: Bytes)
    requires |frame| == 1 && frame[0] < 0x20
    ensures AfterFrame(s, frame) == (s, None)
  {
  }

  /**
   A first frame always drops what was under way. If it announces more than it holds, a message is under way and the
   receiver grants the first block; it delivers one that it holds whole, unless it is empty.
   */
  lemma FirstFrameDecides(s: Reassembly, frame: Bytes)
    requires |frame| >= 2 && 0x10 <= frame[0] < 0x20
    ensures var (next, out) := AfterFrame(s, frame);
      var length: nat := 256 * (frame[0] as int - 0x10) + frame[1] as int;
      && (next.expectedLength.Some? <==> length > |frame| - 2)
      && (out.Some? <==> 1 <= length <= |frame| - 2) && (out.Some? ==> out.value == frame[2..2 + length])
      && (next.expectedLength.None? ==> next == Idle(s))
      && (next.expectedLength.Some? ==>
            && next.expectedLength.value == length && next.buffer == frame[2..] && next.nextSequence == 1
            && next.pendingFlowControl == Some([0x30, s.blockSize % 256, s.stmin % 256])
            && next.framesUntilFlowControl == s.blockSize)
  {
  }

  /**
   A consecutive frame counts only inside a message and with the expected number and data; any other one ends the
   message. It delivers the announced bytes as soon as they are there, and grants the next block when one is used up.
   */
  lemma ConsecutiveFrameDecides(s: Reassembly, frame: Bytes)
    requires frame != [] && 0x20 <= frame[0] < 0x30
    ensures var (next, out) := AfterFrame(s, frame);
      && (s.expectedLength.None? ==> next == s && out == None)
      && (s.expectedLength.Some? && (frame[0] - 0x20 != s.nextSequence || |frame| == 1) ==>
            next == Idle(s) && out == None)
      && (s.expectedLength.Some? && frame[0] - 0x20 == s.nextSequence && |frame| > 1 ==>
            var data, n := s.buffer + frame[1..], s.expectedLength.value;
            if |data| >= n then next == Idle(s) && out == Some(data[..n])
            else
              && out == None && next.expectedLength == s.expectedLength && next.buffer == data
              && next.nextSequence == (s.nextSequence + 1) % 16
              && (next.pendingFlowControl == if s.blockSize > 0 && s.framesUntilFlowControl == 1
                                             then Some([0x30, s.blockSize % 256, s.stmin % 256])
                                             else s.pendingFlowControl))
  {
  }

  // ----- round trip

  /** The state after a list of frames, and what each frame delivered. */
  function FeedAll(s: Reassembly, frames: seq<Bytes>): (Reassembly, seq<Option<Bytes>>)
    decreases |frames|
  {
    if frames == [] then (s, [])
    else
      var (next, out) := AfterFrame(s, frames[0]);
      var (end, outs) := FeedAll(next, frames[1..]);
      (end, [out] + outs)
  }

  /** CAN FD pads the last frame of a message up to a legal data length. */
  function PadLast(frames: seq<Bytes>, pad: Bytes): seq<Bytes>
    requires frames != []
  {
    frames[..|frames| - 1] + [frames[|frames| - 1] + pad]
  }

  /** Nothing before the last frame, then `payload`. */
  predicate DeliversAtEnd(outs: seq<Option<Bytes>>, payload: Bytes) {
    && outs != [] && outs[|outs| - 1] == Some(payload)
    && forall i | 0 <= i < |outs| - 1 :: outs[i] == None
  }

  lemma PadLastTail(frames: seq<Bytes>, pad: Bytes)
    requires |frames| > 1
    ensures PadLast(frames, pad)[0] == frames[0]
    ensures PadLast(frames, pad)[1..] == PadLast(frames[1..], pad)
  {
  }

  lemma FullFrameInSequence(s: Reassembly, remaining: Bytes)
    requires |remaining| > CF_MAX_PAYLOAD && s.nextSequence < 16
    requires s.expectedLength == Some(|s.buffer| + |remaining|)
    ensures var (next, out) := AfterFrame(s, ConsecutiveFrame(s.nextSequence, NextChunk(remaining)));
      && out == None && next.expectedLength == s.expectedLength && Idle(next) == Idle(s)
      && next.buffer == s.buffer + NextChunk(remaining) && next.nextSequence == (s.nextSequence + 1) % 16
  {
  }

  lemma LastFrameInSequence(s: Reassembly, remaining: Bytes, pad: Bytes)
    requires remaining != [] && s.nextSequence < 16
    requires s.expectedLength == Some(|s.buffer| + |remaining|)
    ensures AfterFrame(s, ConsecutiveFrame(s.nextSequence, remaining) + pad) == (Idle(s), Some(s.buffer + remaining))
  {
    var f := ConsecutiveFrame(s.nextSequence, remaining) + pad;
    assert s.buffer + f[1..] == s.buffer + remaining + pad;
  }

  lemma {:induction false} FeedRemaining(s: Reassembly, remaining: Bytes, pad: Bytes)
    requires remaining != [] && s.nextSequence < 16
    requires s.expectedLength == Some(|s.buffer| + |remaining|)
    ensures ConsecutiveFrames(remaining, s.nextSequence) != []
    ensures var (end, outs) := FeedAll(s, PadLast(ConsecutiveFrames(remaining, s.nextSequence), pad));
      end == Idle(s) && DeliversAtEnd(outs, s.buffer + remaining)
    decreases |remaining|
  {
    var frames, rest := ConsecutiveFrames(remaining, s.nextSequence), AfterChunk(remaining);
    var after := ConsecutiveFrames(rest, (s.nextSequence + 1) % 16);
    assert frames == [ConsecutiveFrame(s.nextSequence, NextChunk(remaining))] + after;
    var padded := PadLast(frames, pad);
    if rest == [] {
      LastFrameInSequence(s, remaining, pad);
      assert padded[0] == ConsecutiveFrame(s.nextSequence, remaining) + pad && padded[1..] == [];
    } else {
      FullFrameInSequence(s, remaining);
      PadLastTail(frames, pad);
      var next := AfterFrame(s, padded[0]).0;
      assert next.buffer + rest == s.buffer + remaining;
      assert frames[1..] == after;
      FeedRemaining(next, rest, pad);
    }
  }

  /** The first frame of a message starts a reassembly that waits for the rest. */
  lemma FirstFrameStarts(s: Reassembly, payload: Bytes)
    requires SF_MAX_PAYLOAD < |payload| <= MAX_LENGTH
    ensures var (next, out) := AfterFrame(s, FirstFrame(|payload|, payload[..FF_MAX_PAYLOAD]));
      && out == None && next.buffer + payload[FF_MAX_PAYLOAD..] == payload && next.nextSequence == 1
      && next.expectedLength == Some(|payload|) && Idle(next) == Idle(s)
  {
    var frame := FirstFrame(|payload|, payload[..FF_MAX_PAYLOAD]);
    assert frame[2..] == payload[..FF_MAX_PAYLOAD];
  }

  lemma SingleRoundTrip(s: Reassembly, payload: Bytes, pad: Bytes)
    requires 1 <= |payload| <= SF_MAX_PAYLOAD
    ensures var (end, outs) := FeedAll(s, PadLast(Frames(payload).value, pad));
      end == Idle(s) && DeliversAtEnd(outs, payload)
  {
    var padded := PadLast(Frames(payload).value, pad);
    assert padded == [SingleFrame(payload) + pad];
    var f := padded[0];
    assert padded[1..] == [];
    assert if |payload| <= 0x0F then f[1..1 + |payload|] == payload else f[2..2 + |payload|] == payload;
  }

  /**
   Whatever the reassembler was doing before, feeding it the frames of a payload delivers exactly that
   payload, at the last frame and not before, even when the last frame has been padded.
   */
  lemma SegmentRoundTrip(s: Reassembly, payload: Bytes, pad: Bytes)
    requires 1 <= |payload| <= MAX_LENGTH
    ensures var (end, outs) := FeedAll(s, PadLast(Frames(payload).value, pad));
      end == Idle(s) && DeliversAtEnd(outs, payload)
  {
    var frames := Frames(payload).value;
    var padded := PadLast(frames, pad);
    if |payload| <= SF_MAX_PAYLOAD {
      SingleRoundTrip(s, payload, pad);
    } else {
      var rest := payload[FF_MAX_PAYLOAD..];
      FirstFrameStarts(s, payload);
      FeedRemaining(AfterFrame(s, frames[0]).0, rest, pad);
      assert frames[1..] == ConsecutiveFrames(rest, 1);
      assert padded[1..] == PadLast(frames[1..], pad);
    }
  }

  /** Unpadded, the round trip holds exactly for the non-empty payloads of at most 4095 bytes. */
  lemma RoundTripExactly(s: Reassembly, payload: Bytes)
    ensures Frames(payload).Ok? && DeliversAtEnd(FeedAll(s, Frames(payload).value).1, payload)
       <==> 1 <= |payload| <= MAX_LENGTH
  {
    if 1 <= |payload| <= MAX_LENGTH {
      SegmentRoundTrip(s, payload, []);
      var frames := Frames(payload).value;
      assert frames[|frames| - 1] + [] == frames[|frames| - 1];
      assert PadLast(frames, []) == frames;
    } else if payload == [] {
      var frame := SingleFrame(payload);
      assert |frame| == 1 && frame[0] == 0;
      assert Frames(payload).value[1..] == [];
    }
  }

  // ----- loss detection

  /** The frames that arrive, in order; `arrives[i]` says whether frame i did. */
  function Surviving(frames: seq<Bytes>, arrives: seq<bool>): seq<Bytes>
    requires |frames| == |arrives|
  {
    if frames == [] then []
    else if arrives[0] then [frames[0]] + Surviving(frames[1..], arrives[1..])
    else Surviving(frames[1..], arrives[1..])
  }

  predicate Silent(outs: seq<Option<Bytes>>) {
    forall i | 0 <= i < |outs| :: outs[i] == None
  }

  predicate IsConsecutive(frame: Bytes) {
    frame != [] && frame[0] / 16 == 2
  }

  lemma {:induction false} ConsecutiveFramesKind(remaining: Bytes, sequence: nat)
    ensures forall i | 0 <= i < |ConsecutiveFrames(remaining, sequence)| ::
      IsConsecutive(ConsecutiveFrames(remaining, sequence)[i])
    decreases |remaining|
  {
    if remaining != [] {
      ConsecutiveFramesKind(AfterChunk(remaining), (sequence + 1) % 16);
    }
  }

  lemma {:induction false} IdleStaysSilent(s: Reassembly, frames: seq<Bytes>, arrives: seq<bool>)
    requires |frames| == |arrives| && s.expectedLength == None
    requires forall i | 0 <= i < |frames| :: IsConsecutive(frames[i])
    ensures Silent(FeedAll(s, Surviving(frames, arrives)).1)
    decreases |frames|
  {
    if frames != [] {
      IdleStaysSilent(s, frames[1..], arrives[1..]);
      assert arrives[0] ==> Surviving(frames, arrives)[1..] == Surviving(frames[1..], arrives[1..]);
    }
  }

  /** Data that has yet to come, counting the padding, is too little to complete the message. */
  predicate Starved(s: Reassembly, remaining: Bytes, pad: Bytes) {
    s.expectedLength.Some? && |s.buffer| + |remaining| + |pad| < s.expectedLength.value
  }

  /** Bytes of data in the last frame of `remaining`. */
  function LastChunkSize(remaining: Bytes): nat
    requires remaining != []
    ensures 1 <= LastChunkSize(remaining) <= CF_MAX_PAYLOAD && LastChunkSize(remaining) <= |remaining|
    decreases |remaining|
  {
    if AfterChunk(remaining) == [] then |remaining| else LastChunkSize(AfterChunk(remaining))
  }

  lemma SilentTail(s: Reassembly, frames: seq<Bytes>, arrives: seq<bool>)
    requires frames != [] && |frames| == |arrives|
    requires var next := if arrives[0] then AfterFrame(s, frames[0]) else (s, None);
      next.1 == None && Silent(FeedAll(next.0, Surviving(frames[1..], arrives[1..])).1)
    ensures Silent(FeedAll(s, Surviving(frames, arrives)).1)
  {
    var tail := Surviving(frames[1..], arrives[1..]);
    if arrives[0] {
      assert Surviving(frames, arrives)[1..] == tail;
    }
  }

  /** Full frames keep a starved or an intact reassembly as it is, unless the sequence number resets it. */
  lemma FullFrame(s: Reassembly, remaining: Bytes, sequence: nat)
    requires |remaining| > CF_MAX_PAYLOAD
    requires s.expectedLength.Some? && |s.buffer| + |remaining| <= s.expectedLength.value
    ensures var (next, out) := AfterFrame(s, ConsecutiveFrame(sequence, NextChunk(remaining)));
      out == None && (next.expectedLength == None
        || (next.expectedLength == s.expectedLength && |next.buffer| == |s.buffer| + CF_MAX_PAYLOAD))
  {
  }

  /** A starved reassembly delivers nothing even with the last, padded frame. */
  lemma LastFrame(s: Reassembly, remaining: Bytes, sequence: nat, pad: Bytes)
    requires Starved(s, remaining, pad)
    ensures AfterFrame(s, ConsecutiveFrame(sequence, remaining) + pad).1 == None
  {
    var f := ConsecutiveFrame(sequence, remaining) + pad;
    assert f[1..] == remaining + pad;
  }

  /** Without a message under way, consecutive frames deliver nothing. */
  lemma RestIsLost(s: Reassembly, rest: Bytes, sequence: nat, pad: Bytes, arrives: seq<bool>)
    requires s.expectedLength == None && rest != [] && sequence < 16
    requires |arrives| == |ConsecutiveFrames(rest, sequence)|
    ensures Silent(FeedAll(s, Surviving(PadLast(ConsecutiveFrames(rest, sequence), pad), arrives)).1)
  {
    var after := ConsecutiveFrames(rest, sequence);
    ConsecutiveFramesKind(rest, sequence);
    forall i | 0 <= i < |after| ensures IsConsecutive(PadLast(after, pad)[i]) { assert IsConsecutive(after[i]); }
    IdleStaysSilent(s, PadLast(after, pad), arrives);
  }

  lemma {:induction false} LossStaysSilent(s: Reassembly, remaining: Bytes, sequence: nat, pad: Bytes,
                                           arrives: seq<bool>)
    requires remaining != [] && sequence < 16 && |arrives| == |ConsecutiveFrames(remaining, sequence)|
    requires LastChunkSize(remaining) + |pad| <= CF_MAX_PAYLOAD
    requires Starved(s, remaining, pad) || (s.expectedLength == Some(|s.buffer| + |remaining|) && false in arrives)
    ensures Silent(FeedAll(s, Surviving(PadLast(ConsecutiveFrames(remaining, sequence), pad), arrives)).1)
    decreases |remaining|
  {
    var frames, rest := ConsecutiveFrames(remaining, sequence), AfterChunk(remaining);
    var padded := PadLast(frames, pad);
    var after := ConsecutiveFrames(rest, (sequence + 1) % 16);
    assert frames == [ConsecutiveFrame(sequence, NextChunk(remaining))] + after;
    if rest == [] {
      assert padded[0] == ConsecutiveFrame(sequence, remaining) + pad && padded[1..] == [];
      if arrives[0] { LastFrame(s, remaining, sequence, pad); }
    } else {
      PadLastTail(frames, pad);
      assert frames[1..] == after;
      var next := if arrives[0] then AfterFrame(s, padded[0]).0 else s;
      FullFrame(s, remaining, sequence);
      if next.expectedLength.None? {
        RestIsLost(next, rest, (sequence + 1) % 16, pad, arrives[1..]);
      } else {
        LossStaysSilent(next, rest, (sequence + 1) % 16, pad, arrives[1..]);
      }
    }
    SilentTail(s, padded, arrives);
  }

  /**
   A fresh reassembler that misses any frames of a multi-frame message, however many and wherever they were,
   delivers nothing, although the 4-bit sequence number cannot see sixteen frames vanish in a row.
   */
  lemma LossIsDetected(s: Reassembly, payload: Bytes, pad: Bytes, arrives: seq<bool>)
    requires SF_MAX_PAYLOAD < |payload| <= MAX_LENGTH && s.expectedLength == None
    requires |arrives| == |Frames(payload).value| && false in arrives
    requires LastChunkSize(payload[FF_MAX_PAYLOAD..]) + |pad| <= CF_MAX_PAYLOAD
    ensures Silent(FeedAll(s, Surviving(PadLast(Frames(payload).value, pad), arrives)).1)
  {
    var frames, rest := Frames(payload).value, payload[FF_MAX_PAYLOAD..];
    var after := ConsecutiveFrames(rest, 1);
    assert frames[1..] == after && after != [];
    PadLastTail(frames, pad);
    if arrives[0] {
      FirstFrameStarts(s, payload);
      LossStaysSilent(AfterFrame(s, frames[0]).0, rest, 1, pad, arrives[1..]);
    } else {
      RestIsLost(s, rest, 1, pad, arrives[1..]);
    }
    SilentTail(s, PadLast(frames, pad), arrives);
  }
}
