/**
 The sending half of ISO-TP (`IsoTpAdapter.send` and `_wait_for_flow_control`) talking over a CAN bus to a
 reassembler that answers with flow control, as `UDSCanProgrammer.feed` does.
 */
module IsoTpLink {
  import opened Base
  import opened IsoTp

  const MAX_WAIT_FRAMES := 8

  datatype Message = Message(arbitrationId: nat, data: Bytes)

  datatype SendError = TooLarge | Timeout | WaitedTooLong | Overflow | UnsupportedStatus

  /** What happens on the bus: a data frame, a flow control put on it by the receiver, one taken by the sender. */
  datatype BusEvent = Data | Granted | Taken

  /** The outcome of `_wait_for_flow_control` on the messages that arrive before its deadline, and those left over. */
  function AwaitGrant(inbox: seq<Message>, id: nat, waits: nat): (Result<FlowControl, SendError>, seq<Message>) {
    if inbox == [] then (Err(Timeout), [])
    else
      var parsed := ParseFlowControl(inbox[0].data);
      if inbox[0].arbitrationId != id || parsed.None? then AwaitGrant(inbox[1..], id, waits)
      else if parsed.value.status == FLOW_STATUS_WAIT then
        if waits + 1 > MAX_WAIT_FRAMES then (Err(WaitedTooLong), inbox[1..]) else AwaitGrant(inbox[1..], id, waits + 1)
      else if parsed.value.status == FLOW_STATUS_OVERFLOW then (Err(Overflow), inbox[1..])
      else if parsed.value.status != FLOW_STATUS_CONTINUE then (Err(UnsupportedStatus), inbox[1..])
      else (Ok(parsed.value), inbox[1..])
  }

  /** The flow control that a message carries for the sender with this id. */
  function GrantFor(m: Message, id: nat): Option<FlowControl> {
    if m.arbitrationId == id then ParseFlowControl(m.data) else None
  }

  predicate IsWait(m: Message, id: nat) {
    GrantFor(m, id).Some? && GrantFor(m, id).value.status == FLOW_STATUS_WAIT
  }

  function Waits(inbox: seq<Message>, id: nat): nat {
    if inbox == [] then 0 else Waits(inbox[..|inbox| - 1], id) + if IsWait(inbox[|inbox| - 1], id) then 1 else 0
  }

  /** A message that ends the waiting: a verdict of the receiver, or one "wait" too many. */
  predicate Ends(inbox: seq<Message>, id: nat, waits: nat, k: nat)
    requires k < |inbox|
  {
    && GrantFor(inbox[k], id).Some?
    && (IsWait(inbox[k], id) ==> waits + Waits(inbox[..k + 1], id) > 8)
  }

  /**
   The first message that ends the waiting decides, and everything behind it is left; without one the sender times
   out. Messages for others and messages that are no flow control never matter.
   */
  lemma {:induction false} FirstVerdictDecides(inbox: seq<Message>, id: nat, waits: nat, k: nat)
    requires k <= |inbox| && (forall j: nat | j < k :: !Ends(inbox, id, waits, j))
    requires k < |inbox| ==> Ends(inbox, id, waits, k)
    ensures var (r, left) := AwaitGrant(inbox, id, waits);
      if k == |inbox| then r == Err(Timeout) && left == []
      else
        var g := GrantFor(inbox[k], id).value;
        && left == inbox[k + 1..]
        && r == if g.status == 0 then Ok(g)
                else Err(if g.status == 1 then WaitedTooLong else if g.status == 2 then Overflow
                         else UnsupportedStatus)
    decreases |inbox|
  {
    if inbox != [] {
      var rest, more := inbox[1..], waits + if IsWait(inbox[0], id) then 1 else 0;
      assert inbox[..1] == [inbox[0]] && Waits([], id) == 0;
      assert Waits([inbox[0]], id) == if IsWait(inbox[0], id) then 1 else 0;
      if k > 0 {
        assert !Ends(inbox, id, waits, 0);
        forall j: nat | j < |rest| ensures Ends(rest, id, more, j) <==> Ends(inbox, id, waits, j + 1) {
          WaitsTail(inbox[..j + 2], id);
          assert inbox[..j + 2][1..] == rest[..j + 1];
        }
        FirstVerdictDecides(rest, id, more, k - 1);
        assert rest[k - 1..] == inbox[k..];
      }
    }
  }

  lemma {:induction false} WaitsTail(inbox: seq<Message>, id: nat)
    requires inbox != []
    ensures Waits(inbox, id) == Waits(inbox[1..], id) + if IsWait(inbox[0], id) then 1 else 0
  {
    if |inbox| > 1 {
      var front := inbox[..|inbox| - 1];
      WaitsTail(front, id);
      assert front[1..] == inbox[1..][..|inbox| - 2];
    } else {
      assert inbox[1..] == [] && inbox[..0] == [];
    }
  }

  /** The bus with one ECU on it. */
  class CanBus {
    const receiver: IsoTpReassembler
    const arbitrationId: nat
    var inbox: seq<Message>
    var delivered: seq<Bytes>
    ghost var log: seq<BusEvent>

    constructor (arbitrationId: nat, receiver: IsoTpReassembler)
      ensures this.receiver == receiver && this.arbitrationId == arbitrationId
      ensures inbox == [] && delivered == [] && log == []
    {
      this.receiver, this.arbitrationId, inbox, delivered, log := receiver, arbitrationId, [], [], [];
    }

    /** Puts a data frame on the bus; the ECU feeds it and answers with the flow control it left pending. */
    method SendFrame(frame: Bytes)
      requires |frame| <= MAX_CAN_FD_DATA
      modifies this`inbox, this`delivered, this`log, receiver
      ensures var (next, out) := AfterFrame(old(receiver.State()), frame);
        && receiver.State() == next.(pendingFlowControl := None)
        && delivered == (if out.Some? then old(delivered) + [out.value] else old(delivered))
        && match next.pendingFlowControl
           case None => inbox == old(inbox) && log == old(log) + [Data]
           case Some(g) => inbox == old(inbox) + [Message(arbitrationId, g)] && log == old(log) + [Data, Granted]
    {
      var payload := receiver.Feed(frame);
      log := log + [Data];
      var grant := receiver.PopFlowControlFrame();
      if grant.Some? {
        inbox := inbox + [Message(arbitrationId, grant.value)];
        log := log + [Granted];
      }
      if payload.Some? {
        delivered := delivered + [payload.value];
      }
    }

    method WaitForFlowControl(id: nat) returns (r: Result<FlowControl, SendError>)
      modifies this`inbox, this`log
      ensures (r, inbox) == AwaitGrant(old(inbox), id, 0)
      ensures log == old(log) + if r.Ok? then [Taken] else []
    {
      var waitCount := 0;
      while inbox != []
        invariant AwaitGrant(inbox, id, waitCount) == AwaitGrant(old(inbox), id, 0)
        invariant log == old(log)
        decreases |inbox|
      {
        var message := inbox[0];
        inbox := inbox[1..];
        if message.arbitrationId != id {
          continue;
        }
        var parsed := ParseFlowControl(message.data);
        if parsed.None? {
          continue;
        }
        var status := parsed.value.status;
        if status == FLOW_STATUS_WAIT {
          waitCount := waitCount + 1;
          if waitCount > MAX_WAIT_FRAMES {
            return Err(WaitedTooLong);
          }
          continue;
        }
        if status == FLOW_STATUS_OVERFLOW {
          return Err(Overflow);
        }
        if status != FLOW_STATUS_CONTINUE {
          return Err(UnsupportedStatus);
        }
        log := log + [Taken];
        return Ok(parsed.value);
      }
      return Err(Timeout);
    }
  }

  /** Every grant is taken at once, before the next data frame, and nothing else is ever taken. */
  ghost predicate Lockstep(log: seq<BusEvent>) {
    && (log != [] ==> log[0] == Data)
    && forall i | 0 <= i < |log| :: log[i] == Granted <==> i + 1 < |log| && log[i + 1] == Taken
  }

  function Grants(log: seq<BusEvent>): nat {
    multiset(log)[Granted]
  }

  /** Consecutive frames needed for the part of a payload that the first frame leaves over. */
  function ConsecutiveCount(length: nat): nat {
    if length <= FF_MAX_PAYLOAD then 0 else (length - FF_MAX_PAYLOAD + CF_MAX_PAYLOAD - 1) / CF_MAX_PAYLOAD
  }

  /** One grant for the first frame, then one per full block; a block size of 0 means no further grants. */
  function GrantsNeeded(length: nat, blockSize: nat): nat {
    if length <= SF_MAX_PAYLOAD then 0
    else if blockSize == 0 then 1
    else (ConsecutiveCount(length) + blockSize - 1) / blockSize
  }

  lemma QuotientIs(m: nat, b: nat, q: nat)
    requires b > 0 && q * b <= m < (q + 1) * b
    ensures m / b == q
  {
    var d := m / b;
    assert m == d * b + m % b;
    assert d < q ==> (d + 1) * b <= q * b;
    assert d > q ==> (q + 1) * b <= d * b;
  }

  lemma CeilingDivision(n: nat, b: nat, q: nat, r: nat)
    requires n == q * b + r && 1 <= r <= b
    ensures (n + b - 1) / b == q + 1
  {
    assert (q + 1) * b == q * b + b && (q + 2) * b == q * b + 2 * b;
    QuotientIs(n + b - 1, b, q + 1);
  }

  /** Consecutive frames in a number of full blocks. */
  ghost function FramesIn(blocks: nat, blockSize: nat): nat {
    if blocks == 0 then 0 else FramesIn(blocks - 1, blockSize) + blockSize
  }

  lemma {:induction false} FramesInIsProduct(blocks: nat, blockSize: nat)
    ensures FramesIn(blocks, blockSize) == blocks * blockSize
  {
    if blocks > 0 { FramesInIsProduct(blocks - 1, blockSize); }
  }

  lemma GrantParses(blockSize: nat, stmin: nat)
    requires blockSize < 256
    ensures var p := ParseFlowControl(BuildFlowControl(FLOW_STATUS_CONTINUE, blockSize, stmin));
      p.Some? && p.value.status == FLOW_STATUS_CONTINUE && p.value.blockSize == blockSize
  {
  }

  /** A log in lockstep so far, with `grants` grants taken, and one more outstanding when `waiting`. */
  ghost predicate Steady(log: seq<BusEvent>, grants: nat, waiting: bool) {
    if waiting then |log| >= 2 && log[|log| - 1] == Granted && log[|log| - 2] == Data
      && Lockstep(log[..|log| - 1]) && Grants(log[..|log| - 1]) == grants
    else Lockstep(log) && Grants(log) == grants
  }

  lemma SteadyTake(log: seq<BusEvent>, grants: nat)
    requires Steady(log, grants, true)
    ensures Steady(log + [Taken], grants + 1, false)
  {
    var done, next := log[..|log| - 1], log + [Taken];
    assert next == done + [Granted, Taken];
    assert forall i | 0 <= i < |done| :: next[i] == done[i];
  }

  lemma SteadyData(log: seq<BusEvent>, grants: nat)
    requires Steady(log, grants, false)
    ensures Steady(log + [Data], grants, false) && Steady(log + [Data, Granted], grants, true)
  {
    var next := log + [Data, Granted];
    assert next[..|next| - 1] == log + [Data];
    assert forall i | 0 <= i < |log| :: (log + [Data])[i] == log[i];
  }

  /** The receiver half way through a message: it has granted the next block exactly when the last one is used up. */
  ghost predicate InStep(bus: CanBus, payload: Bytes, remaining: Bytes, sequence: nat, blockCounter: nat)
    reads bus, bus.receiver
  {
    var s := bus.receiver.State();
    var usedUp := s.blockSize > 0 && blockCounter == s.blockSize;
    && s.expectedLength == Some(|payload|) && s.buffer + remaining == payload
    && s.nextSequence == sequence < 16 && s.pendingFlowControl == None
    && (s.blockSize > 0 ==> blockCounter <= s.blockSize)
    && (s.blockSize > 0 ==> s.framesUntilFlowControl == if usedUp then s.blockSize else s.blockSize - blockCounter)
    && bus.inbox == (if usedUp then [Message(bus.arbitrationId, Grant(s))] else [])
  }

  /** The frame that goes out next, and what is left in the receiver's and the sender's hands after it. */
  lemma NextFrame(s: Reassembly, remaining: Bytes, blockCounter: nat)
    requires remaining != [] && s.nextSequence < 16 && s.pendingFlowControl == None
    requires s.expectedLength == Some(|s.buffer| + |remaining|)
    requires s.blockSize > 0 ==> blockCounter < s.blockSize && s.framesUntilFlowControl == s.blockSize - blockCounter
    ensures var (next, out) := AfterFrame(s, ConsecutiveFrame(s.nextSequence, NextChunk(remaining)));
      if AfterChunk(remaining) == [] then next == Idle(s) && out == Some(s.buffer + remaining)
      else
        var usedUp := s.blockSize > 0 && blockCounter + 1 == s.blockSize;
        && out == None && next.expectedLength == s.expectedLength && Idle(next) == Idle(s)
        && next.buffer + AfterChunk(remaining) == s.buffer + remaining
        && next.nextSequence == (s.nextSequence + 1) % 16
        && next.pendingFlowControl == (if usedUp then Some(Grant(s)) else None)
        && (s.blockSize > 0 ==>
              next.framesUntilFlowControl == if usedUp then s.blockSize else s.blockSize - blockCounter - 1)
  {
    var f := ConsecutiveFrame(s.nextSequence, NextChunk(remaining));
    assert f[1..] == NextChunk(remaining);
    assert NextChunk(remaining) + AfterChunk(remaining) == remaining;
    assert s.buffer + NextChunk(remaining) + AfterChunk(remaining) == s.buffer + remaining;
  }

  /**
   `send` to a receiver that owes no flow control. A payload that is too long is refused before anything is
   put on the bus. Any other is sent without a timeout and delivered exactly once (an empty one never is):
   the sender waits exactly after the frames on which the receiver grants, leaves no flow control unread, and
   the number of grants is the number of blocks.
   */
  method Send(bus: CanBus, arbitrationId: nat, payload: Bytes) returns (r: Result<(), SendError>)
    requires arbitrationId == bus.arbitrationId && bus.inbox == [] && Lockstep(bus.log)
    requires bus.receiver.blockSize < 256 && bus.receiver.pendingFlowControl == None
    modifies bus, bus.receiver
    ensures r == if |payload| <= MAX_LENGTH then Ok(()) else Err(TooLarge)
    ensures bus.inbox == [] && bus.receiver.pendingFlowControl == None
    ensures bus.delivered == old(bus.delivered) + if r.Ok? && payload != [] then [payload] else []
    ensures Lockstep(bus.log)
    ensures r.Ok? ==> Grants(bus.log) == old(Grants(bus.log)) + GrantsNeeded(|payload|, bus.receiver.blockSize)
    ensures r.Err? ==> bus.log == old(bus.log)
  {
    if |payload| <= SF_MAX_PAYLOAD {
      SingleFrameDelivers(bus.receiver.State(), payload);
      SteadyData(bus.log, Grants(bus.log));
      bus.SendFrame(SingleFrame(payload));
      return Ok(());
    }
    if |payload| > MAX_LENGTH {
      return Err(TooLarge);
    }
    r := SendSegmented(bus, arbitrationId, payload);
  }

  /** The first frame, then the consecutive frames in the blocks the receiver grants. */
  method SendSegmented(bus: CanBus, arbitrationId: nat, payload: Bytes) returns (r: Result<(), SendError>)
    requires arbitrationId == bus.arbitrationId && bus.inbox == [] && Lockstep(bus.log)
    requires bus.receiver.blockSize < 256 && bus.receiver.pendingFlowControl == None
    requires SF_MAX_PAYLOAD < |payload| <= MAX_LENGTH
    modifies bus, bus.receiver
    ensures r == Ok(()) && bus.inbox == [] && bus.receiver.pendingFlowControl == None
    ensures bus.delivered == old(bus.delivered) + [payload]
    ensures Lockstep(bus.log)
    ensures Grants(bus.log) == old(Grants(bus.log)) + GrantsNeeded(|payload|, bus.receiver.blockSize)
  {
    SteadyData(bus.log, Grants(bus.log));
    bus.SendFrame(FirstFrame(|payload|, payload[..FF_MAX_PAYLOAD]));
    var blockSize := TakeGrant(bus, arbitrationId, old(Grants(bus.log)));
    SendRemaining(bus, arbitrationId, payload, blockSize, old(Grants(bus.log)));
    return Ok(());
  }

  method SendRemaining(bus: CanBus, arbitrationId: nat, payload: Bytes, granted: nat, ghost before: nat)
    requires arbitrationId == bus.arbitrationId && granted == bus.receiver.blockSize < 256
    requires SF_MAX_PAYLOAD < |payload| <= MAX_LENGTH
    requires InStep(bus, payload, payload[FF_MAX_PAYLOAD..], 1, 0) && bus.inbox == []
    requires Steady(bus.log, before + 1, false)
    modifies bus, bus.receiver
    ensures bus.inbox == [] && bus.receiver.pendingFlowControl == None
    ensures bus.delivered == old(bus.delivered) + [payload]
    ensures Lockstep(bus.log) && Grants(bus.log) == before + GrantsNeeded(|payload|, bus.receiver.blockSize)
  {
    var remaining, sequence: nat, blockSize, blockCounter: nat := payload[FF_MAX_PAYLOAD..], 1, granted, 0;
    ghost var full: nat, sent: nat := 0, 0;
    while remaining != []
      invariant Sending(bus, payload, remaining, sequence, blockSize, blockCounter, full)
      invariant Counted(|payload|, |remaining|, sent, full, blockSize, blockCounter)
      invariant Steady(bus.log, before + full + 1, bus.inbox != [])
      invariant bus.delivered == old(bus.delivered) + if remaining == [] then [payload] else []
      decreases |remaining|
    {
      CountNextFrame(|payload|, |remaining|, sent, full, blockSize, blockCounter);
      blockSize, blockCounter, full :=
        SendNext(bus, arbitrationId, payload, remaining, sequence, blockSize, blockCounter, full, before);
      remaining, sequence, sent := AfterChunk(remaining), (sequence + 1) % 16, sent + 1;
    }
    CountedGrants(|payload|, sent, full, blockSize, blockCounter);
  }

  /** The sender is about to send the next consecutive frame, or done. */
  ghost predicate Sending(bus: CanBus, payload: Bytes, remaining: Bytes, sequence: nat, blockSize: nat,
                          blockCounter: nat, full: nat)
    reads bus, bus.receiver
  {
    && blockSize == bus.receiver.blockSize < 256 && bus.receiver.pendingFlowControl == None
    && if remaining == [] then bus.inbox == [] else InStep(bus, payload, remaining, sequence, blockCounter)
  }

  /** One turn of the loop: waits for a grant if the block is used up, and sends one frame. */
  method SendNext(bus: CanBus, arbitrationId: nat, payload: Bytes, remaining: Bytes, sequence: nat, size: nat,
                  counter: nat, ghost blocks: nat, ghost before: nat)
    returns (blockSize: nat, blockCounter: nat, ghost full: nat)
    requires arbitrationId == bus.arbitrationId && remaining != []
    requires Sending(bus, payload, remaining, sequence, size, counter, blocks)
    requires Steady(bus.log, before + blocks + 1, bus.inbox != [])
    modifies bus, bus.receiver
    ensures Sending(bus, payload, AfterChunk(remaining), (sequence + 1) % 16, blockSize, blockCounter, full)
    ensures Steady(bus.log, before + full + 1, bus.inbox != []) && blockSize == size
    ensures if size != 0 && counter >= size then full == blocks + 1 && blockCounter == 1
            else full == blocks && blockCounter == counter + 1
    ensures bus.delivered == old(bus.delivered) + if AfterChunk(remaining) == [] then [payload] else []
  {
    blockSize, blockCounter, full := size, counter, blocks;
    if blockSize != 0 && blockCounter >= blockSize {
      blockSize := TakeGrant(bus, arbitrationId, before + full + 1);
      full, blockCounter := full + 1, 0;
    }
    SendConsecutive(bus, payload, remaining, sequence, blockCounter, before + full + 1);
    blockCounter := blockCounter + 1;
  }

  lemma CountNextFrame(length: nat, remaining: nat, sent: nat, full: nat, blockSize: nat, blockCounter: nat)
    requires remaining > 0 && Counted(length, remaining, sent, full, blockSize, blockCounter)
    ensures var left := if remaining <= CF_MAX_PAYLOAD then 0 else remaining - CF_MAX_PAYLOAD;
      if blockSize != 0 && blockCounter >= blockSize then Counted(length, left, sent + 1, full + 1, blockSize, 1)
      else Counted(length, left, sent + 1, full, blockSize, blockCounter + 1)
  {
  }

  /** Frames sent against bytes gone and against blocks used up. */
  ghost predicate Counted(length: nat, remaining: nat, sent: nat, full: nat, blockSize: nat, blockCounter: nat) {
    && (remaining > 0 ==> length == FF_MAX_PAYLOAD + CF_MAX_PAYLOAD * sent + remaining)
    && (remaining == 0 ==> CF_MAX_PAYLOAD * (sent - 1) < length - FF_MAX_PAYLOAD <= CF_MAX_PAYLOAD * sent)
    && (if blockSize == 0 then full == 0
        else sent == FramesIn(full, blockSize) + blockCounter && blockCounter <= blockSize)
    && (remaining == 0 ==> blockCounter >= 1)
  }

  lemma CountedGrants(length: nat, sent: nat, full: nat, blockSize: nat, blockCounter: nat)
    requires length > SF_MAX_PAYLOAD && Counted(length, 0, sent, full, blockSize, blockCounter)
    ensures full + 1 == GrantsNeeded(length, blockSize)
  {
    var data := length - FF_MAX_PAYLOAD;
    CeilingDivision(data, CF_MAX_PAYLOAD, sent - 1, data - CF_MAX_PAYLOAD * (sent - 1));
    if blockSize > 0 {
      FramesInIsProduct(full, blockSize);
      CeilingDivision(sent, blockSize, full, blockCounter);
    }
  }

  /** Waiting when the receiver has granted: no error is raised and the sender learns the receiver's block size. */
  method TakeGrant(bus: CanBus, arbitrationId: nat, ghost taken: nat) returns (blockSize: nat)
    requires arbitrationId == bus.arbitrationId && bus.receiver.blockSize < 256
    requires bus.inbox == [Message(bus.arbitrationId, Grant(bus.receiver.State()))]
    requires Steady(bus.log, taken, true)
    modifies bus`inbox, bus`log
    ensures blockSize == bus.receiver.blockSize && bus.inbox == []
    ensures Steady(bus.log, taken + 1, false)
  {
    SteadyTake(bus.log, taken);
    GrantParses(bus.receiver.blockSize, bus.receiver.stmin);
    var flow := bus.WaitForFlowControl(arbitrationId);
    match flow
    case Err(_) => assert false;
    case Ok(grant) => blockSize := grant.blockSize;
  }

  method SendConsecutive(bus: CanBus, payload: Bytes, remaining: Bytes, sequence: nat, blockCounter: nat,
                         ghost taken: nat)
    requires remaining != [] && InStep(bus, payload, remaining, sequence, blockCounter) && bus.inbox == []
    requires Steady(bus.log, taken, false)
    modifies bus`inbox, bus`delivered, bus`log, bus.receiver
    ensures bus.receiver.pendingFlowControl == None
    ensures Steady(bus.log, taken, bus.inbox != [])
    ensures AfterChunk(remaining) == [] ==> bus.inbox == [] && bus.delivered == old(bus.delivered) + [payload]
    ensures AfterChunk(remaining) != [] ==>
      InStep(bus, payload, AfterChunk(remaining), (sequence + 1) % 16, blockCounter + 1)
      && bus.delivered == old(bus.delivered)
  {
    NextFrame(bus.receiver.State(), remaining, blockCounter);
    SteadyData(bus.log, taken);
    bus.SendFrame(ConsecutiveFrame(sequence, NextChunk(remaining)));
  }

  lemma SingleFrameDelivers(s: Reassembly, payload: Bytes)
    requires |payload| <= SF_MAX_PAYLOAD && s.pendingFlowControl == None
    ensures var (next, out) := AfterFrame(s, SingleFrame(payload));
      out == (if payload == [] then None else Some(payload)) && next.pendingFlowControl == None
  {
    var f := SingleFrame(payload);
    assert if |payload| <= 0x0F then f[1..1 + |payload|] == payload else f[2..2 + |payload|] == payload;
  }
}
