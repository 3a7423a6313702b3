/**
 The gateway's own copy of the transfer services (transport/doip/server.py) on an `ECUContext`
 (ecus/gateway/ecu_context.py). It has no "download requested" flag, but blocks and lengths are judged by the same
 rules as in the ECU: both use `AcceptBlock` and `LengthMatches`.
 */
module GatewayTransfer {
  import opened Base
  import opened UdsCodec
  import opened UdsProgrammer

  /** The block length offered in the answer to a download request. */
  const BLOCK_LENGTH := 8192

  datatype GatewayState = GatewayState(
    receiver: Receiver, expectedSize: nat, receivedSize: nat, verified: bool, installPending: bool,
    installStarted: bool, unlocked: bool, pendingSeed: Bytes, eraseCompleted: bool, activationMarked: bool,
    session: byte, sessionStartedAt: real, sequence: byte)

  datatype GatewayOutcome = GatewayOutcome(state: GatewayState, responses: seq<Bytes>)

  function ResetGateway(s: GatewayState): GatewayState {
    s.(unlocked := false, pendingSeed := [], eraseCompleted := false, activationMarked := false,
       installPending := false, expectedSize := 0, receivedSize := 0, sequence := 1)
  }

  function ExpireGateway(s: GatewayState, now: real): GatewayState {
    if s.session == SESSION_PROGRAMMING && s.sessionStartedAt != 0.0 && now - s.sessionStartedAt > SESSION_TIMEOUT
    then ResetGateway(s).(session := 0)
    else s
  }

  function GatewayTransferOf(s: GatewayState): Transfer {
    Transfer(s.receiver.buffer, s.receiver.chunkCount, s.expectedSize, s.receivedSize, s.sequence)
  }

  function RefuseAt(s: GatewayState, sid: byte, code: byte): GatewayOutcome {
    GatewayOutcome(s, [Negative(sid, code)])
  }

  /** The last four bytes of the request, whatever its length. */
  function DownloadSize(p: Bytes): nat {
    FromBigEndian(if |p| > 4 then p[|p| - 4..] else p)
  }

  function GatewayRequestDownload(s: GatewayState, p: Bytes, now: real): GatewayOutcome {
    var sid, t := SID_REQUEST_DOWNLOAD, ExpireGateway(s, now);
    if t.session != SESSION_PROGRAMMING then RefuseAt(t, sid, NRC_NOT_IN_SESSION)
    else if !t.unlocked || !t.eraseCompleted then RefuseAt(t.(sessionStartedAt := now), sid, NRC_CONDITIONS_NOT_CORRECT)
    else
      GatewayOutcome(t.(sessionStartedAt := now, receiver := Receiver([], 0, None, t.receiver.saved),
                        expectedSize := DownloadSize(p), receivedSize := 0, verified := false,
                        installPending := false, installStarted := false, sequence := 1),
                     [[PositiveSid(sid), 0x00, 0x44] + U16(BLOCK_LENGTH)])
  }

  function GatewayTransferData(s: GatewayState, p: Bytes, now: real): GatewayOutcome {
    var sid, t := SID_TRANSFER_DATA, ExpireGateway(s, now);
    if t.session != SESSION_PROGRAMMING then RefuseAt(t, sid, NRC_NOT_IN_SESSION)
    else if |p| < 2 then RefuseAt(t.(sessionStartedAt := now), sid, NRC_INCORRECT_LENGTH)
    else if !t.unlocked then RefuseAt(t.(sessionStartedAt := now), sid, NRC_SECURITY_ACCESS_DENIED)
    else
      var (u, verdict) := AcceptBlock(GatewayTransferOf(t), p[1], p[2..]);
      GatewayOutcome(t.(sessionStartedAt := now,
                        receiver := t.receiver.(buffer := u.buffer, chunkCount := u.chunkCount),
                        receivedSize := u.receivedSize, sequence := u.sequence),
                     [BlockReply(verdict, p[1])])
  }

  function GatewayTransferExit(cfg: Config, s: GatewayState, now: real): GatewayOutcome {
    var sid, t := SID_TRANSFER_EXIT, ExpireGateway(s, now);
    if t.session != SESSION_PROGRAMMING then RefuseAt(t, sid, NRC_NOT_IN_SESSION)
    else if !t.unlocked then RefuseAt(t.(sessionStartedAt := now), sid, NRC_SECURITY_ACCESS_DENIED)
    else if !LengthMatches(GatewayTransferOf(t)) then RefuseAt(t.(sessionStartedAt := now), sid, NRC_INCORRECT_LENGTH)
    else
      var passed := t.receiver.Passes(cfg);
      GatewayOutcome(t.(sessionStartedAt := now, receiver := t.receiver.(saved := Some(t.receiver.FirmwareData())),
                        verified := passed, installPending := passed, installStarted := false),
                     [ResponsePending(sid),
                      if passed then [PositiveSid(sid)] else Negative(sid, NRC_PROGRAMMING_FAILURE)])
  }

  class ECUContext {
    const cfg: Config
    const receiver: FirmwareReceiver
    var expectedDownloadSize: nat
    var downloadReceivedSize: nat
    var downloadVerified: bool
    var installPending: bool
    var installStarted: bool
    var securityUnlocked: bool
    var pendingSeed: Bytes
    var eraseCompleted: bool
    var activationMarked: bool
    var currentSession: byte
    var sessionStartedAt: real
    var expectedTransferSequence: byte

    ghost function State(): GatewayState
      reads this, receiver
    {
      GatewayState(receiver.State(), expectedDownloadSize, downloadReceivedSize, downloadVerified, installPending,
                   installStarted, securityUnlocked, pendingSeed, eraseCompleted, activationMarked, currentSession,
                   sessionStartedAt, expectedTransferSequence)
    }

    constructor (cfg: Config, receiver: FirmwareReceiver)
      ensures this.cfg == cfg && this.receiver == receiver
      ensures State() == GatewayState(receiver.State(), 0, 0, false, false, false, false, [], false, false, 0, 0.0, 1)
    {
      this.cfg, this.receiver := cfg, receiver;
      expectedDownloadSize, downloadReceivedSize := 0, 0;
      downloadVerified, installPending, installStarted := false, false, false;
      securityUnlocked, pendingSeed, eraseCompleted, activationMarked := false, [], false, false;
      currentSession, sessionStartedAt, expectedTransferSequence := 0, 0.0, 1;
    }

    method ResetProgrammingState()
      modifies this
      ensures State() == ResetGateway(old(State()))
    {
      securityUnlocked, pendingSeed, eraseCompleted, activationMarked, installPending := false, [], false, false, false;
      expectedDownloadSize, downloadReceivedSize, expectedTransferSequence := 0, 0, 1;
    }

    method ExpireSessionIfNeeded(now: real)
      modifies this
      ensures State() == ExpireGateway(old(State()), now)
    {
      if currentSession != SESSION_PROGRAMMING {
        return;
      }
      if sessionStartedAt == 0.0 {
        return;
      }
      if now - sessionStartedAt <= SESSION_TIMEOUT {
        return;
      }
      currentSession := 0;
      ResetProgrammingState();
    }

    method RequireProgrammingSession(now: real) returns (ok: bool)
      modifies this
      ensures var t := ExpireGateway(old(State()), now);
        && (ok <==> t.session == SESSION_PROGRAMMING)
        && State() == if ok then t.(sessionStartedAt := now) else t
    {
      ExpireSessionIfNeeded(now);
      if currentSession != SESSION_PROGRAMMING {
        return false;
      }
      sessionStartedAt := now;
      return true;
    }

    method StartDownload(size: nat)
      modifies this, receiver
      ensures var s := old(State());
        State() == s.(receiver := Receiver([], 0, None, s.receiver.saved), expectedSize := size, receivedSize := 0,
                      verified := false, installPending := false, installStarted := false, sequence := 1)
    {
      receiver.Clear();
      expectedDownloadSize, downloadReceivedSize, downloadVerified := size, 0, false;
      installPending, installStarted, expectedTransferSequence := false, false, 1;
    }

    /** RequestDownload in `_handle_raw_uds_message` */
    method HandleRequestDownload(p: Bytes, now: real) returns (responses: seq<Bytes>)
      modifies this, receiver
      ensures GatewayOutcome(State(), responses) == GatewayRequestDownload(old(State()), p, now)
    {
      var sid := SID_REQUEST_DOWNLOAD;
      var ok := RequireProgrammingSession(now);
      if !ok {
        return [Negative(sid, NRC_NOT_IN_SESSION)];
      }
      if !securityUnlocked || !eraseCompleted {
        return [Negative(sid, NRC_CONDITIONS_NOT_CORRECT)];
      }
      StartDownload(DownloadSize(p));
      return [[PositiveSid(sid), 0x00, 0x44] + U16(BLOCK_LENGTH)];
    }

    method StoreBlock(data: Bytes)
      modifies this, receiver
      ensures var s := old(State());
        State() == s.(receiver := s.receiver.(buffer := s.receiver.buffer + data,
                                              chunkCount := s.receiver.chunkCount + 1),
                      receivedSize := s.receivedSize + |data|, sequence := (s.sequence + 1) % 256)
    {
      receiver.buffer := receiver.buffer + data;
      downloadReceivedSize := downloadReceivedSize + |data|;
      receiver.chunkCount := receiver.chunkCount + 1;
      expectedTransferSequence := (expectedTransferSequence + 1) % 256;
    }

    method AppendBlock(sequence: byte, data: Bytes) returns (response: Bytes)
      modifies this, receiver
      ensures var (u, verdict) := AcceptBlock(GatewayTransferOf(old(State())), sequence, data);
        && response == BlockReply(verdict, sequence)
        && State() == old(State()).(receiver := old(State()).receiver.(buffer := u.buffer, chunkCount := u.chunkCount),
                                    receivedSize := u.receivedSize, sequence := u.sequence)
    {
      if sequence != expectedTransferSequence {
        return Negative(SID_TRANSFER_DATA, NRC_WRONG_SEQUENCE);
      }
      var remaining := 0;
      if expectedDownloadSize > downloadReceivedSize {
        remaining := expectedDownloadSize - downloadReceivedSize;
      }
      var trimmed := [];
      if remaining != 0 {
        trimmed := if |data| < remaining then data else data[..remaining];
      }
      if trimmed == [] && expectedDownloadSize != 0 {
        return Negative(SID_TRANSFER_DATA, NRC_REQUEST_OUT_OF_RANGE);
      }
      StoreBlock(trimmed);
      return [PositiveSid(SID_TRANSFER_DATA), sequence];
    }

    /** TransferData in `_handle_raw_uds_message` */
    method HandleTransferData(p: Bytes, now: real) returns (responses: seq<Bytes>)
      modifies this, receiver
      ensures GatewayOutcome(State(), responses) == GatewayTransferData(old(State()), p, now)
    {
      var ok := RequireProgrammingSession(now);
      if !ok {
        return [Negative(SID_TRANSFER_DATA, NRC_NOT_IN_SESSION)];
      }
      if |p| < 2 {
        return [Negative(SID_TRANSFER_DATA, NRC_INCORRECT_LENGTH)];
      }
      if !securityUnlocked {
        return [Negative(SID_TRANSFER_DATA, NRC_SECURITY_ACCESS_DENIED)];
      }
      var response := AppendBlock(p[1], p[2..]);
      return [response];
    }

    /** RequestTransferExit in `_handle_raw_uds_message` */
    method HandleTransferExit(now: real) returns (responses: seq<Bytes>)
      modifies this, receiver
      ensures GatewayOutcome(State(), responses) == GatewayTransferExit(cfg, old(State()), now)
    {
      var sid := SID_TRANSFER_EXIT;
      var ok := RequireProgrammingSession(now);
      if !ok {
        return [Negative(sid, NRC_NOT_IN_SESSION)];
      }
      if !securityUnlocked {
        return [Negative(sid, NRC_SECURITY_ACCESS_DENIED)];
      }
      if expectedDownloadSize != 0 && downloadReceivedSize != expectedDownloadSize {
        return [Negative(sid, NRC_INCORRECT_LENGTH)];
      }
      responses := [ResponsePending(sid)];
      receiver.Save();
      var passed := receiver.Verify(cfg);
      downloadVerified := passed;
      installPending := passed;
      installStarted := false;
      responses := responses + [if passed then [PositiveSid(sid)] else Negative(sid, NRC_PROGRAMMING_FAILURE)];
    }
  }
}
