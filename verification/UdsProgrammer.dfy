/**
 The ECU side of firmware programming over UDS (ecus/base/uds_can_programmer.py and
 ecus/bcm/firmware_receiver.py): a request is handled at an instant `now` of the ECU's clock.
 */
module UdsProgrammer {
  import opened Base
  import opened UdsCodec

  const SESSION_TIMEOUT := 120.0
  const LOCKOUT := 30.0
  const ATTEMPT_LIMIT := 3

  /** What the ECU was built with: its id, the reference image, the digest, the key derivation, its version text. */
  datatype Config = Config(ecuId: nat, original: Bytes, digest: Bytes -> Bytes, deriveKey: Bytes -> Bytes,
                           version: Bytes)

  /** The runtime switches read at the start of every request. */
  datatype Control = Control(diagnosticsEnabled: bool, programmingEnabled: bool)

  datatype Receiver = Receiver(buffer: Bytes, chunkCount: nat, expectedSize: Option<nat>, saved: Option<Bytes>) {
    function FirmwareData(): Bytes {
      if expectedSize.Some? && expectedSize.value < |buffer| then buffer[..expectedSize.value] else buffer
    }

    predicate Passes(cfg: Config) {
      cfg.digest(cfg.original) == cfg.digest(FirmwareData())
    }
  }

  datatype ProgrammerState = ProgrammerState(
    receiver: Receiver, expectedSize: nat, receivedSize: nat, installPending: bool, installStarted: bool,
    downloadRequested: bool, unlocked: bool, pendingSeed: Bytes, seedCounter: nat, eraseCompleted: bool,
    activationMarked: bool, session: byte, sessionStartedAt: real, failures: nat, lockedUntil: real, sequence: byte)

  const INITIAL := ProgrammerState(Receiver([], 0, None, None), 0, 0, false, false, false, false, [], 0, false,
                                   false, 0, 0.0, 0, 0.0, 1)

  /** The ECU after a request, the responses it sent, and whether it started an installation. */
  datatype Outcome = Outcome(state: ProgrammerState, responses: seq<Bytes>, installs: bool)

  function Reply(s: ProgrammerState, r: Bytes): Outcome {
    Outcome(s, [r], false)
  }

  function Refuse(s: ProgrammerState, sid: byte, code: byte): Outcome {
    Reply(s, Negative(sid, code))
  }

  /** A slow routine: response pending first, then the answer. */
  function PendingThen(s: ProgrammerState, sid: byte, r: Bytes): Outcome {
    Outcome(s, [ResponsePending(sid), r], false)
  }

  function ResetProgramming(s: ProgrammerState): ProgrammerState {
    s.(unlocked := false, pendingSeed := [], eraseCompleted := false, activationMarked := false,
       installPending := false,
       installStarted := false, downloadRequested := false, expectedSize := 0, receivedSize := 0, sequence := 1)
  }

  predicate Expired(s: ProgrammerState, now: real) {
    s.session == SESSION_PROGRAMMING && s.sessionStartedAt != 0.0 && now - s.sessionStartedAt > SESSION_TIMEOUT
  }

  function Expire(s: ProgrammerState, now: real): ProgrammerState {
    if Expired(s, now) then ResetProgramming(s).(session := 0) else s
  }

  function SeedBytes(ecuId: nat, counter: nat): Bytes
    requires counter < TWO_POW_32
  {
    TwoBytesFit(ecuId % TWO_POW_16, counter / TWO_POW_16);
    U16(BitOr(ecuId % TWO_POW_16, counter / TWO_POW_16)) + U16(counter % TWO_POW_16)
  }

  /** An empty receiver that expects `size` bytes. */
  function Cleared(r: Receiver, size: nat): Receiver {
    Receiver([], 0, Some(size), r.saved)
  }

  // ----- the services that need a programming session

  function RequestSeed(cfg: Config, s: ProgrammerState, now: real): Outcome {
    var sid := SID_SECURITY_ACCESS;
    if now < s.lockedUntil then Refuse(s, sid, NRC_DELAY_NOT_EXPIRED)
    else
      var counter := (s.seedCounter + 1) % TWO_POW_32;
      var seed := SeedBytes(cfg.ecuId, counter);
      Reply(s.(seedCounter := counter, pendingSeed := seed, unlocked := false), [PositiveSid(sid), REQUEST_SEED] + seed)
  }

  function SendKey(cfg: Config, s: ProgrammerState, key: Bytes, now: real): Outcome {
    var sid := SID_SECURITY_ACCESS;
    if s.pendingSeed == [] then Refuse(s, sid, NRC_REQUEST_SEQUENCE_ERROR)
    else if key != cfg.deriveKey(s.pendingSeed) then
      var t := s.(unlocked := false, failures := s.failures + 1, pendingSeed := []);
      if t.failures >= ATTEMPT_LIMIT then Refuse(t.(lockedUntil := now + LOCKOUT), sid, NRC_EXCEED_ATTEMPTS)
      else Refuse(t, sid, NRC_INVALID_KEY)
    else Reply(s.(unlocked := true, failures := 0, pendingSeed := []), [PositiveSid(sid), SEND_KEY])
  }

  function SecurityAccess(cfg: Config, s: ProgrammerState, p: Bytes, now: real): Outcome
    requires p != []
  {
    if |p| < 2 then Refuse(s, SID_SECURITY_ACCESS, NRC_INCORRECT_LENGTH)
    else if p[1] == REQUEST_SEED then RequestSeed(cfg, s, now)
    else if p[1] == SEND_KEY then SendKey(cfg, s, p[2..], now)
    else Refuse(s, SID_SECURITY_ACCESS, NRC_SUBFUNCTION_NOT_SUPPORTED)
  }

  function EraseSize(data: Bytes): nat {
    if |data| >= 4 then FromBigEndian(data[..4]) else 0
  }

  function RoutineControl(s: ProgrammerState, p: Bytes): Outcome
    requires p != []
  {
    var sid := SID_ROUTINE_CONTROL;
    if |p| < 4 then Refuse(s, sid, NRC_INCORRECT_LENGTH)
    else if !s.unlocked then Refuse(s, sid, NRC_SECURITY_ACCESS_DENIED)
    else if p[1] != ROUTINE_START then Refuse(s, sid, NRC_SUBFUNCTION_NOT_SUPPORTED)
    else
      var routine, answer := FromBigEndian(p[2..4]), [PositiveSid(sid), p[1]] + p[2..4];
      if routine == ROUTINE_ERASE then
        var size := EraseSize(p[4..]);
        PendingThen(s.(receiver := Cleared(s.receiver, size), expectedSize := size, receivedSize := 0,
                       installPending := false, eraseCompleted := true, activationMarked := false,
                       sequence := 1), sid, answer)
      else if routine == ROUTINE_VERIFY then
        if !s.installPending then Refuse(s, sid, NRC_PROGRAMMING_FAILURE) else PendingThen(s, sid, answer)
      else if routine == ROUTINE_ACTIVATE then
        if !s.installPending then Refuse(s, sid, NRC_PROGRAMMING_FAILURE)
        else PendingThen(s.(activationMarked := true), sid, answer)
      else Refuse(s, sid, NRC_REQUEST_OUT_OF_RANGE)
  }

  function RequestDownload(s: ProgrammerState, p: Bytes): Outcome
    requires p != []
  {
    var sid := SID_REQUEST_DOWNLOAD;
    if !s.unlocked || !s.eraseCompleted then Refuse(s, sid, NRC_CONDITIONS_NOT_CORRECT)
    else if |p| < 11 then Refuse(s, sid, NRC_INCORRECT_LENGTH)
    else if p[1] != 0x00 || p[2] != 0x44 then Refuse(s, sid, NRC_REQUEST_OUT_OF_RANGE)
    else
      var size := FromBigEndian(p[|p| - 4..]);
      Reply(s.(receiver := Cleared(s.receiver, size), expectedSize := size, receivedSize := 0, installPending := false,
               installStarted := false, downloadRequested := true, sequence := 1),
            [PositiveSid(sid), 0x00, 0x44, 0x00, 0x40])
  }

  /** Where a transfer stands: shared by this ECU and by the gateway's own copy of the service. */
  datatype Transfer = Transfer(buffer: Bytes, chunkCount: nat, expectedSize: nat, receivedSize: nat, sequence: byte)

  datatype BlockVerdict = Accepted | WrongSequence | OutOfRange

  /** One block, in sequence, cut to what is still missing. */
  function AcceptBlock(t: Transfer, sequence: byte, data: Bytes): (Transfer, BlockVerdict) {
    if sequence != t.sequence then (t, WrongSequence)
    else
      var remaining := if t.expectedSize > t.receivedSize then t.expectedSize - t.receivedSize else 0;
      var chunk := if |data| < remaining then data else data[..remaining];
      if chunk == [] && t.expectedSize != 0 then (t, OutOfRange)
      else (t.(buffer := t.buffer + chunk, chunkCount := t.chunkCount + 1, receivedSize := t.receivedSize + |chunk|,
               sequence := (t.sequence + 1) % 256), Accepted)
  }

  function BlockReply(verdict: BlockVerdict, sequence: byte): Bytes {
    match verdict
    case Accepted => [PositiveSid(SID_TRANSFER_DATA), sequence]
    case WrongSequence => Negative(SID_TRANSFER_DATA, NRC_WRONG_SEQUENCE)
    case OutOfRange => Negative(SID_TRANSFER_DATA, NRC_REQUEST_OUT_OF_RANGE)
  }

  function TransferOf(s: ProgrammerState): Transfer {
    Transfer(s.receiver.buffer, s.receiver.chunkCount, s.expectedSize, s.receivedSize, s.sequence)
  }

  function WithTransfer(s: ProgrammerState, t: Transfer): ProgrammerState {
    s.(receiver := s.receiver.(buffer := t.buffer, chunkCount := t.chunkCount), receivedSize := t.receivedSize,
       sequence := t.sequence)
  }

  function TransferData(s: ProgrammerState, p: Bytes): Outcome
    requires p != []
  {
    var sid := SID_TRANSFER_DATA;
    if |p| < 2 then Refuse(s, sid, NRC_INCORRECT_LENGTH)
    else if !s.unlocked then Refuse(s, sid, NRC_SECURITY_ACCESS_DENIED)
    else if !s.downloadRequested then Refuse(s, sid, NRC_REQUEST_SEQUENCE_ERROR)
    else
      var (t, verdict) := AcceptBlock(TransferOf(s), p[1], p[2..]);
      Reply(WithTransfer(s, t), BlockReply(verdict, p[1]))
  }

  predicate LengthMatches(t: Transfer) {
    t.expectedSize == 0 || t.receivedSize == t.expectedSize
  }

  function TransferExit(cfg: Config, s: ProgrammerState): Outcome {
    var sid := SID_TRANSFER_EXIT;
    if !s.unlocked then Refuse(s, sid, NRC_SECURITY_ACCESS_DENIED)
    else if !s.downloadRequested then Refuse(s, sid, NRC_REQUEST_SEQUENCE_ERROR)
    else if !LengthMatches(TransferOf(s)) then Refuse(s, sid, NRC_INCORRECT_LENGTH)
    else
      var t := s.(receiver := s.receiver.(saved := Some(s.receiver.FirmwareData())));
      if t.receiver.Passes(cfg)
      then PendingThen(t.(installPending := true, downloadRequested := false), sid, [PositiveSid(sid)])
      else PendingThen(t.(installPending := false), sid, Negative(sid, NRC_PROGRAMMING_FAILURE))
  }

  function EcuReset(s: ProgrammerState, p: Bytes): Outcome
    requires p != []
  {
    var kind := if |p| > 1 then p[1] else 0x01;
    Outcome(ResetProgramming(s).(session := 0), [[PositiveSid(SID_ECU_RESET), kind]],
            s.installPending && s.activationMarked && !s.installStarted)
  }

  predicate IsProgrammingService(sid: byte) {
    sid in {SID_SECURITY_ACCESS, SID_ROUTINE_CONTROL, SID_REQUEST_DOWNLOAD, SID_TRANSFER_DATA, SID_TRANSFER_EXIT,
            SID_ECU_RESET}
  }

  function InSession(cfg: Config, s: ProgrammerState, p: Bytes, now: real): Outcome
    requires p != [] && IsProgrammingService(p[0])
  {
    if p[0] == SID_SECURITY_ACCESS then SecurityAccess(cfg, s, p, now)
    else if p[0] == SID_ROUTINE_CONTROL then RoutineControl(s, p)
    else if p[0] == SID_REQUEST_DOWNLOAD then RequestDownload(s, p)
    else if p[0] == SID_TRANSFER_DATA then TransferData(s, p)
    else if p[0] == SID_TRANSFER_EXIT then TransferExit(cfg, s)
    else EcuReset(s, p)
  }

  function Programming(cfg: Config, s: ProgrammerState, p: Bytes, now: real): Outcome
    requires p != [] && IsProgrammingService(p[0])
  {
    var t := Expire(s, now);
    if t.session != SESSION_PROGRAMMING then Refuse(t, p[0], NRC_NOT_IN_SESSION)
    else InSession(cfg, t.(sessionStartedAt := now), p, now)
  }

  // ----- the request handler

  function SubFunction(p: Bytes): byte {
    if |p| > 1 then p[1] else 0x00
  }

  function SessionControl(s: ProgrammerState, p: Bytes, now: real): Outcome {
    Reply(ResetProgramming(s).(session := SubFunction(p), sessionStartedAt := now),
          [PositiveSid(SID_SESSION_CONTROL), SubFunction(p)])
  }

  function TesterPresent(s: ProgrammerState, p: Bytes, now: real): Outcome {
    var t := Expire(s, now);
    Reply(if t.session == SESSION_PROGRAMMING then t.(sessionStartedAt := now) else t,
          [PositiveSid(SID_TESTER_PRESENT), SubFunction(p)])
  }

  function ReadData(cfg: Config, s: ProgrammerState, p: Bytes): Outcome
    requires p != []
  {
    var sid := SID_READ_DATA;
    if |p| < 3 then Refuse(s, sid, NRC_INCORRECT_LENGTH)
    else if FromBigEndian(p[1..3]) != DID_SOFTWARE_VERSION then Refuse(s, sid, NRC_REQUEST_OUT_OF_RANGE)
    else Reply(s, [PositiveSid(sid)] + p[1..3] + cfg.version)
  }

  function Handle(cfg: Config, s: ProgrammerState, p: Bytes, control: Control, now: real): Outcome {
    if p == [] then Outcome(s, [], false)
    else if !control.diagnosticsEnabled || (IsProgrammingService(p[0]) && !control.programmingEnabled)
    then Refuse(s, p[0], NRC_CONDITIONS_NOT_CORRECT)
    else if p[0] == SID_SESSION_CONTROL then SessionControl(s, p, now)
    else if p[0] == SID_TESTER_PRESENT then TesterPresent(s, p, now)
    else if p[0] == SID_READ_DATA then ReadData(cfg, s, p)
    else if IsProgrammingService(p[0]) then Programming(cfg, s, p, now)
    else Refuse(s, p[0], NRC_SERVICE_NOT_SUPPORTED)
  }

  // ----- the objects

  class FirmwareReceiver {
    var buffer: Bytes
    var chunkCount: nat
    var expectedSize: Option<nat>
    var saved: Option<Bytes>

    ghost function State(): Receiver
      reads this
    {
      Receiver(buffer, chunkCount, expectedSize, saved)
    }

    constructor ()
      ensures State() == Receiver([], 0, None, None)
    {
      buffer, chunkCount, expectedSize, saved := [], 0, None, None;
    }

    method Clear()
      modifies this
      ensures State() == Receiver([], 0, None, old(saved))
    {
      buffer, chunkCount, expectedSize := [], 0, None;
    }

    method SetExpectedSize(size: nat)
      modifies this
      ensures State() == old(State()).(expectedSize := Some(size))
    {
      expectedSize := Some(size);
    }

    method FirmwareData() returns (data: Bytes)
      ensures data == State().FirmwareData()
    {
      if expectedSize.Some? && expectedSize.value < |buffer| {
        return buffer[..expectedSize.value];
      }
      return buffer;
    }

    method Save()
      modifies this
      ensures State() == old(State()).(saved := Some(old(State()).FirmwareData()))
    {
      var data := FirmwareData();
      saved := Some(data);
    }

    method Verify(cfg: Config) returns (passed: bool)
      ensures passed == State().Passes(cfg)
    {
      var data := FirmwareData();
      return cfg.digest(cfg.original) == cfg.digest(data);
    }
  }

  class UDSCanProgrammer {
    const cfg: Config
    const receiver: FirmwareReceiver
    var expectedSize: nat
    var receivedSize: nat
    var installPending: bool
    var installStarted: bool
    var downloadRequested: bool
    var securityUnlocked: bool
    var pendingSeed: Bytes
    var seedCounter: nat
    var eraseCompleted: bool
    var activationMarked: bool
    var currentSession: byte
    var sessionStartedAt: real
    var securityFailures: nat
    var securityLockedUntil: real
    var expectedTransferSequence: byte
    /** Responses in the order they were put on the bus. */
    var sent: seq<Bytes>
    /** Installations started so far. */
    var installs: nat

    ghost function State(): ProgrammerState
      reads this, receiver
    {
      ProgrammerState(
        receiver.State(), expectedSize, receivedSize, installPending, installStarted, downloadRequested,
        securityUnlocked, pendingSeed, seedCounter, eraseCompleted, activationMarked, currentSession,
        sessionStartedAt, securityFailures, securityLockedUntil, expectedTransferSequence)
    }

    constructor (cfg: Config, receiver: FirmwareReceiver)
      requires receiver.State() == INITIAL.receiver
      ensures this.cfg == cfg && this.receiver == receiver && State() == INITIAL && sent == [] && installs == 0
    {
      this.cfg, this.receiver := cfg, receiver;
      expectedSize, receivedSize, installPending, installStarted, downloadRequested := 0, 0, false, false, false;
      securityUnlocked, pendingSeed, seedCounter, eraseCompleted, activationMarked := false, [], 0, false, false;
      currentSession, sessionStartedAt, securityFailures, securityLockedUntil := 0, 0.0, 0, 0.0;
      expectedTransferSequence, sent, installs := 1, [], 0;
    }

    /** The new state and responses are those of `o`, and an installation was started exactly if `o` says so. */
    twostate predicate Did(o: Outcome)
      reads this, receiver
    {
      State() == o.state && sent == old(sent) + o.responses && installs == old(installs) + if o.installs then 1 else 0
    }

    method Send(r: Bytes)
      modifies this`sent
      ensures sent == old(sent) + [r]
    {
      sent := sent + [r];
    }

    method ForgetSecurity()
      modifies `securityUnlocked, `pendingSeed, `eraseCompleted, `activationMarked
      ensures State() == old(State()).(unlocked := false, pendingSeed := [], eraseCompleted := false,
                                       activationMarked := false)
    {
      securityUnlocked, pendingSeed, eraseCompleted, activationMarked := false, [], false, false;
    }

    method ForgetDownload()
      modifies `installPending, `installStarted, `downloadRequested, `expectedSize, `receivedSize,
        `expectedTransferSequence
      ensures State() == old(State()).(installPending := false, installStarted := false, downloadRequested := false,
                                       expectedSize := 0, receivedSize := 0, sequence := 1)
    {
      installPending, installStarted, downloadRequested := false, false, false;
      expectedSize, receivedSize, expectedTransferSequence := 0, 0, 1;
    }

    method ResetProgrammingState()
      modifies `securityUnlocked, `pendingSeed, `eraseCompleted, `activationMarked, `installPending, `installStarted,
               `downloadRequested, `expectedSize, `receivedSize, `expectedTransferSequence
      ensures State() == ResetProgramming(old(State()))
    {
      ForgetSecurity();
      ForgetDownload();
    }

    method ExpireSessionIfNeeded(now: real)
      modifies `securityUnlocked, `pendingSeed, `eraseCompleted, `activationMarked, `installPending, `installStarted,
               `downloadRequested, `expectedSize, `receivedSize, `expectedTransferSequence, `currentSession
      ensures State() == Expire(old(State()), now)
    {
      if currentSession != SESSION_PROGRAMMING {
        return;
      }
      if sessionStartedAt == 0.0 {
        return;
      }
      if now - sessionStartedAt <= SESSION_TIMEOUT {
        return;
      }
      currentSession := 0;
      ResetProgrammingState();
    }

    method RequireProgrammingSession(sid: byte, now: real) returns (ok: bool)
      modifies this
      ensures ok <==> Expire(old(State()), now).session == SESSION_PROGRAMMING
      ensures ok ==> Did(Outcome(Expire(old(State()), now).(sessionStartedAt := now), [], false))
      ensures !ok ==> Did(Refuse(Expire(old(State()), now), sid, NRC_NOT_IN_SESSION))
    {
      ExpireSessionIfNeeded(now);
      if currentSession != SESSION_PROGRAMMING {
        Send(Negative(sid, NRC_NOT_IN_SESSION));
        return false;
      }
      sessionStartedAt := now;
      return true;
    }

    method GenerateSeed() returns (seed: Bytes)
      modifies this`seedCounter
      ensures seedCounter == (old(seedCounter) + 1) % TWO_POW_32 && seed == SeedBytes(cfg.ecuId, seedCounter)
    {
      seedCounter := (seedCounter + 1) % TWO_POW_32;
      return SeedBytes(cfg.ecuId, seedCounter);
    }

    method AcceptKey()
      modifies `securityUnlocked, `securityFailures, `pendingSeed
      ensures State() == old(State()).(unlocked := true, failures := 0, pendingSeed := [])
    {
      securityUnlocked, securityFailures, pendingSeed := true, 0, [];
    }

    method RejectKey(now: real)
      modifies `securityUnlocked, `securityFailures, `pendingSeed, `securityLockedUntil
      ensures var s, failures := old(State()), old(securityFailures) + 1;
        State() == s.(unlocked := false, failures := failures, pendingSeed := [],
                      lockedUntil := if failures >= ATTEMPT_LIMIT then now + LOCKOUT else s.lockedUntil)
    {
      securityUnlocked, securityFailures, pendingSeed := false, securityFailures + 1, [];
      if securityFailures >= ATTEMPT_LIMIT {
        securityLockedUntil := now + LOCKOUT;
      }
    }

    method HandleSendKey(key: Bytes, now: real)
      modifies this
      ensures Did(SendKey(cfg, old(State()), key, now))
    {
      var sid := SID_SECURITY_ACCESS;
      if pendingSeed == [] {
        Send(Negative(sid, NRC_REQUEST_SEQUENCE_ERROR));
        return;
      }
      var expectedKey := cfg.deriveKey(pendingSeed);
      if key == expectedKey {
        AcceptKey();
        Send([PositiveSid(sid), SEND_KEY]);
        return;
      }
      RejectKey(now);
      Send(Negative(sid, if securityFailures >= ATTEMPT_LIMIT then NRC_EXCEED_ATTEMPTS else NRC_INVALID_KEY));
    }

    method IssueSeed()
      modifies `seedCounter, `pendingSeed, `securityUnlocked
      ensures var counter := (old(seedCounter) + 1) % TWO_POW_32;
        State() == old(State()).(seedCounter := counter, pendingSeed := SeedBytes(cfg.ecuId, counter),
                                 unlocked := false)
    {
      pendingSeed := GenerateSeed();
      securityUnlocked := false;
    }

    method HandleRequestSeed(now: real)
      modifies this
      ensures Did(RequestSeed(cfg, old(State()), now))
    {
      var sid := SID_SECURITY_ACCESS;
      if now < securityLockedUntil {
        Send(Negative(sid, NRC_DELAY_NOT_EXPIRED));
      } else {
        IssueSeed();
        Send([PositiveSid(sid), REQUEST_SEED] + pendingSeed);
      }
    }

    method HandleSecurityAccess(p: Bytes, now: real)
      requires p != []
      modifies this
      ensures Did(SecurityAccess(cfg, old(State()), p, now))
    {
      if |p| < 2 {
        Send(Negative(SID_SECURITY_ACCESS, NRC_INCORRECT_LENGTH));
      } else if p[1] == REQUEST_SEED {
        HandleRequestSeed(now);
      } else if p[1] == SEND_KEY {
        HandleSendKey(p[2..], now);
      } else {
        Send(Negative(SID_SECURITY_ACCESS, NRC_SUBFUNCTION_NOT_SUPPORTED));
      }
    }

    /** An empty receiver and transfer for `size` bytes. */
    method ExpectTransfer(size: nat)
      modifies receiver, `expectedSize, `receivedSize, `expectedTransferSequence
      ensures State() == old(State()).(receiver := Cleared(old(State()).receiver, size), expectedSize := size,
                                       receivedSize := 0, sequence := 1)
    {
      receiver.Clear();
      receiver.SetExpectedSize(size);
      expectedSize := size;
      receivedSize := 0;
      expectedTransferSequence := 1;
    }

    method MarkErased()
      modifies `installPending, `eraseCompleted, `activationMarked
      ensures State() == old(State()).(installPending := false, eraseCompleted := true, activationMarked := false)
    {
      installPending, eraseCompleted, activationMarked := false, true, false;
    }

    method EraseMemory(p: Bytes)
      requires |p| >= 4
      modifies this, receiver
      ensures var size := EraseSize(p[4..]);
        Did(PendingThen(old(State()).(receiver := Cleared(old(State()).receiver, size), expectedSize := size,
                                      receivedSize := 0, installPending := false, eraseCompleted := true,
                                      activationMarked := false, sequence := 1),
                        SID_ROUTINE_CONTROL, [PositiveSid(SID_ROUTINE_CONTROL), p[1]] + p[2..4]))
    {
      Send(ResponsePending(SID_ROUTINE_CONTROL));
      ExpectTransfer(EraseSize(p[4..]));
      MarkErased();
      Send([PositiveSid(SID_ROUTINE_CONTROL), p[1]] + p[2..4]);
    }

    method HandleRoutineControl(p: Bytes)
      requires p != []
      modifies this, receiver
      ensures Did(RoutineControl(old(State()), p))
    {
      var sid := SID_ROUTINE_CONTROL;
      if |p| < 4 {
        Send(Negative(sid, NRC_INCORRECT_LENGTH));
        return;
      }
      if !securityUnlocked {
        Send(Negative(sid, NRC_SECURITY_ACCESS_DENIED));
        return;
      }
      if p[1] != ROUTINE_START {
        Send(Negative(sid, NRC_SUBFUNCTION_NOT_SUPPORTED));
        return;
      }
      var routine := FromBigEndian(p[2..4]);
      if routine == ROUTINE_ERASE {
        EraseMemory(p);
        return;
      }
      if routine == ROUTINE_VERIFY || routine == ROUTINE_ACTIVATE {
        if !installPending {
          Send(Negative(sid, NRC_PROGRAMMING_FAILURE));
          return;
        }
        Send(ResponsePending(sid));
        if routine == ROUTINE_ACTIVATE {
          activationMarked := true;
        }
        Send([PositiveSid(sid), p[1]] + p[2..4]);
        return;
      }
      Send(Negative(sid, NRC_REQUEST_OUT_OF_RANGE));
    }

    method MarkDownloading()
      modifies `installPending, `installStarted, `downloadRequested
      ensures State() == old(State()).(installPending := false, installStarted := false, downloadRequested := true)
    {
      installPending, installStarted, downloadRequested := false, false, true;
    }

    method HandleRequestDownload(p: Bytes)
      requires p != []
      modifies this, receiver
      ensures Did(RequestDownload(old(State()), p))
    {
      var sid := SID_REQUEST_DOWNLOAD;
      if !securityUnlocked || !eraseCompleted {
        Send(Negative(sid, NRC_CONDITIONS_NOT_CORRECT));
        return;
      }
      if |p| < 11 {
        Send(Negative(sid, NRC_INCORRECT_LENGTH));
        return;
      }
      if p[1] != 0x00 || p[2] != 0x44 {
        Send(Negative(sid, NRC_REQUEST_OUT_OF_RANGE));
        return;
      }
      ExpectTransfer(FromBigEndian(p[|p| - 4..]));
      MarkDownloading();
      Send([PositiveSid(sid), 0x00, 0x44, 0x00, 0x40]);
    }

    method StoreBlock(chunk: Bytes)
      modifies receiver, `receivedSize, `expectedTransferSequence
      ensures var s := old(State());
        State() == s.(receiver := s.receiver.(buffer := s.receiver.buffer + chunk,
                                              chunkCount := s.receiver.chunkCount + 1),
                      receivedSize := s.receivedSize + |chunk|, sequence := (s.sequence + 1) % 256)
    {
      receiver.buffer := receiver.buffer + chunk;
      receiver.chunkCount := receiver.chunkCount + 1;
      receivedSize := receivedSize + |chunk|;
      expectedTransferSequence := (expectedTransferSequence + 1) % 256;
    }

    method HandleTransferData(p: Bytes)
      requires p != []
      modifies this, receiver
      ensures Did(TransferData(old(State()), p))
    {
      var sid := SID_TRANSFER_DATA;
      if |p| < 2 {
        Send(Negative(sid, NRC_INCORRECT_LENGTH));
        return;
      }
      if !securityUnlocked {
        Send(Negative(sid, NRC_SECURITY_ACCESS_DENIED));
        return;
      }
      if !downloadRequested {
        Send(Negative(sid, NRC_REQUEST_SEQUENCE_ERROR));
        return;
      }
      if p[1] != expectedTransferSequence {
        Send(Negative(sid, NRC_WRONG_SEQUENCE));
        return;
      }
      var remaining := if expectedSize > receivedSize then expectedSize - receivedSize else 0;
      var data := p[2..];
      var chunk := if |data| < remaining then data else data[..remaining];
      if chunk == [] && expectedSize != 0 {
        Send(Negative(sid, NRC_REQUEST_OUT_OF_RANGE));
        return;
      }
      StoreBlock(chunk);
      Send([PositiveSid(sid), p[1]]);
    }

    method VerifyDownload()
      modifies receiver, `installPending, `downloadRequested
      ensures var s := old(State());
        var saved := s.receiver.(saved := Some(s.receiver.FirmwareData()));
        State() == s.(receiver := saved, installPending := saved.Passes(cfg),
                      downloadRequested := s.downloadRequested && !saved.Passes(cfg))
    {
      receiver.Save();
      installPending := receiver.Verify(cfg);
      if installPending {
        downloadRequested := false;
      }
    }

    method HandleTransferExit()
      modifies this, receiver
      ensures Did(TransferExit(cfg, old(State())))
    {
      var sid := SID_TRANSFER_EXIT;
      if !securityUnlocked {
        Send(Negative(sid, NRC_SECURITY_ACCESS_DENIED));
        return;
      }
      if !downloadRequested {
        Send(Negative(sid, NRC_REQUEST_SEQUENCE_ERROR));
        return;
      }
      if expectedSize != 0 && receivedSize != expectedSize {
        Send(Negative(sid, NRC_INCORRECT_LENGTH));
        return;
      }
      Send(ResponsePending(sid));
      VerifyDownload();
      if installPending {
        Send([PositiveSid(sid)]);
      } else {
        Send(Negative(sid, NRC_PROGRAMMING_FAILURE));
      }
    }

    method StartInstall()
      modifies `installStarted, `installs
      ensures var s, starts := old(State()), installPending && activationMarked && !old(installStarted);
        && State() == s.(installStarted := s.installStarted || starts)
        && installs == old(installs) + if starts then 1 else 0
    {
      if installPending && activationMarked && !installStarted {
        installStarted := true;
        installs := installs + 1;
      }
    }

    method HandleEcuReset(p: Bytes)
      requires p != []
      modifies this, receiver
      ensures Did(EcuReset(old(State()), p))
    {
      Send([PositiveSid(SID_ECU_RESET), if |p| > 1 then p[1] else 0x01]);
      StartInstall();
      currentSession := 0;
      ResetProgrammingState();
    }

    method HandleProgramming(p: Bytes, now: real)
      requires p != [] && IsProgrammingService(p[0])
      modifies this, receiver
      ensures Did(Programming(cfg, old(State()), p, now))
    {
      var ok := RequireProgrammingSession(p[0], now);
      if ok {
        Serve(p, now);
      }
    }

    method Serve(p: Bytes, now: real)
      requires p != [] && IsProgrammingService(p[0])
      modifies this, receiver
      ensures Did(InSession(cfg, old(State()), p, now))
    {
      if p[0] == SID_SECURITY_ACCESS {
        HandleSecurityAccess(p, now);
      } else if p[0] == SID_ROUTINE_CONTROL {
        HandleRoutineControl(p);
      } else if p[0] == SID_REQUEST_DOWNLOAD {
        HandleRequestDownload(p);
      } else if p[0] == SID_TRANSFER_DATA {
        HandleTransferData(p);
      } else if p[0] == SID_TRANSFER_EXIT {
        HandleTransferExit();
      } else {
        HandleEcuReset(p);
      }
    }

    method HandleSessionControl(p: Bytes, now: real)
      modifies this
      ensures Did(SessionControl(old(State()), p, now))
    {
      currentSession := SubFunction(p);
      ResetProgrammingState();
      sessionStartedAt := now;
      Send([PositiveSid(SID_SESSION_CONTROL), SubFunction(p)]);
    }

    method HandleTesterPresent(p: Bytes, now: real)
      modifies this
      ensures Did(TesterPresent(old(State()), p, now))
    {
      ExpireSessionIfNeeded(now);
      if currentSession == SESSION_PROGRAMMING {
        sessionStartedAt := now;
      }
      Send([PositiveSid(SID_TESTER_PRESENT), SubFunction(p)]);
    }

    method HandleReadData(p: Bytes)
      requires p != []
      modifies this`sent
      ensures Did(ReadData(cfg, old(State()), p))
    {
      var sid := SID_READ_DATA;
      if |p| < 3 {
        Send(Negative(sid, NRC_INCORRECT_LENGTH));
      } else if FromBigEndian(p[1..3]) != DID_SOFTWARE_VERSION {
        Send(Negative(sid, NRC_REQUEST_OUT_OF_RANGE));
      } else {
        Send([PositiveSid(sid)] + p[1..3] + cfg.version);
      }
    }

    /** `_handle_uds` */
    method HandleUds(p: Bytes, control: Control, now: real)
      modifies this, receiver
      ensures Did(Handle(cfg, old(State()), p, control, now))
    {
      if p == [] {
        return;
      }
      if !control.diagnosticsEnabled || (IsProgrammingService(p[0]) && !control.programmingEnabled) {
        Send(Negative(p[0], NRC_CONDITIONS_NOT_CORRECT));
        return;
      }
      if p[0] == SID_SESSION_CONTROL {
        HandleSessionControl(p, now);
      } else if p[0] == SID_TESTER_PRESENT {
        HandleTesterPresent(p, now);
      } else if p[0] == SID_READ_DATA {
        HandleReadData(p);
      } else if IsProgrammingService(p[0]) {
        HandleProgramming(p, now);
      } else {
        Send(Negative(p[0], NRC_SERVICE_NOT_SUPPORTED));
      }
    }
  }
}
