/**
 The tester's side of a flash session (transport/uds/flash_manager.py, transport/uds/client.py and the raw UDS
 operations of transport/doip/library_client.py), over a link that loses nothing, against the ECU of `UdsProgrammer`.
 */
module FlashSession {
  import opened Base
  import opened UdsCodec
  import opened UdsProgrammer
  import opened LossyTransfer

  const ENABLED := Control(true, true)

  datatype FlashError = TimedOut | Rejected(code: byte) | Unexpected(response: Bytes)

  // ----- answers

  /** What the tester makes of a final response. */
  function Verdict(r: Bytes, sid: byte): Result<Bytes, FlashError> {
    if IsNegativeResponse(r) then Err(Rejected(r[2]))
    else if r == [] || r[0] != PositiveSid(sid) then Err(Unexpected(r))
    else Ok(r)
  }

  /** Exactly the positive responses pass, unchanged, and a refusal is reported with its code. */
  lemma VerdictMeans(r: Bytes, sid: byte)
    ensures Verdict(r, sid).Ok? <==> IsPositiveResponse(r, sid)
    ensures Verdict(r, sid).Ok? ==> Verdict(r, sid).value == r
    ensures forall code: byte :: Verdict(r, sid) == Err(Rejected(code)) <==> |r| >= 3 && r[0] == 0x7F && r[2] == code
  {
  }

  /** The verdict on the first response that is not "response pending". */
  function Answer(responses: seq<Bytes>, sid: byte): Result<Bytes, FlashError> {
    if responses == [] then Err(TimedOut)
    else if IsResponsePending(responses[0], sid) then Answer(responses[1..], sid)
    else Verdict(responses[0], sid)
  }

  /** Only "response pending" for the tester's own request is waited out. */
  lemma OnlyOwnPendingIsSkipped(sid: byte, other: byte, rest: seq<Bytes>)
    ensures var answer := Answer([[0x7F, other, 0x78]] + rest, sid);
      answer == if other == sid then Answer(rest, sid) else Err(Rejected(0x78))
  {
    assert ([[0x7F, other, 0x78]] + rest)[1..] == rest;
  }

  function Final(o: Outcome): Bytes
    requires o.responses != []
  {
    o.responses[|o.responses| - 1]
  }

  /** One final response, after at most one "response pending". */
  ghost predicate AnswersOnce(o: Outcome, sid: byte) {
    && o.responses != [] && !IsResponsePending(Final(o), sid)
    && (|o.responses| == 1 || (|o.responses| == 2 && IsResponsePending(o.responses[0], sid)))
  }

  lemma InSessionAnswersOnce(cfg: Config, s: ProgrammerState, p: Bytes, now: real)
    requires p != [] && IsProgrammingService(p[0])
    ensures AnswersOnce(InSession(cfg, s, p, now), p[0])
  {
    if p[0] == SID_SECURITY_ACCESS {
      SecurityAnswersOnce(cfg, s, p, now);
    } else if p[0] == SID_ROUTINE_CONTROL {
      RoutineAnswersOnce(s, p);
    } else if p[0] == SID_TRANSFER_DATA {
      BlockAnswersOnce(s, p);
    }
  }

  lemma SecurityAnswersOnce(cfg: Config, s: ProgrammerState, p: Bytes, now: real)
    requires p != []
    ensures AnswersOnce(SecurityAccess(cfg, s, p, now), SID_SECURITY_ACCESS)
  {
  }

  lemma RoutineAnswersOnce(s: ProgrammerState, p: Bytes)
    requires p != []
    ensures AnswersOnce(RoutineControl(s, p), SID_ROUTINE_CONTROL)
  {
  }

  lemma BlockAnswersOnce(s: ProgrammerState, p: Bytes)
    requires p != []
    ensures AnswersOnce(TransferData(s, p), SID_TRANSFER_DATA)
  {
  }

  /** Every request gets exactly one final answer, and the tester's verdict is about that one. */
  lemma EveryRequestIsAnswered(cfg: Config, s: ProgrammerState, p: Bytes, control: Control, now: real)
    requires p != []
    ensures var o := Handle(cfg, s, p, control, now);
      AnswersOnce(o, p[0]) && Answer(o.responses, p[0]) == Verdict(Final(o), p[0])
  {
    if IsProgrammingService(p[0]) {
      InSessionAnswersOnce(cfg, Expire(s, now).(sessionStartedAt := now), p, now);
    }
    AnswerIsFinal(Handle(cfg, s, p, control, now), p[0]);
  }

  lemma AnswerIsFinal(o: Outcome, sid: byte)
    requires AnswersOnce(o, sid)
    ensures Answer(o.responses, sid) == Verdict(Final(o), sid)
  {
    if |o.responses| == 2 {
      assert o.responses[1..] == [Final(o)];
      assert Answer(o.responses[1..], sid) == Verdict(Final(o), sid);
    }
  }

  // ----- how far a session has come

  /** A programming session whose clock was last restarted at `at`. */
  predicate Open(s: ProgrammerState, at: real) {
    s.session == SESSION_PROGRAMMING && s.sessionStartedAt == at && !s.installStarted
  }

  predicate Unlocked(s: ProgrammerState, at: real) {
    Open(s, at) && s.unlocked
  }

  /** The first bytes `done` of an image of `size` bytes have arrived. */
  predicate Loading(s: ProgrammerState, at: real, size: nat, done: Bytes) {
    && Unlocked(s, at) && s.downloadRequested && s.expectedSize == size && s.receivedSize == |done|
    && s.receiver.buffer == done && s.receiver.expectedSize == Some(size)
  }

  /** The image waits for its installation. */
  predicate Loaded(s: ProgrammerState, at: real, firmware: Bytes) {
    && Unlocked(s, at) && s.installPending && s.receiver.buffer == firmware && s.receiver.FirmwareData() == firmware
  }

  /** Inside a live session a service request is served and restarts the clock. */
  lemma ServedInSession(cfg: Config, s: ProgrammerState, p: Bytes, at: real, now: real)
    requires Open(s, at) && now - at <= SESSION_TIMEOUT && p != [] && IsProgrammingService(p[0])
    ensures Handle(cfg, s, p, ENABLED, now) == InSession(cfg, s.(sessionStartedAt := now), p, now)
  {
  }

  lemma SessionOpens(cfg: Config, s: ProgrammerState, now: real)
    ensures var o := Handle(cfg, s, BuildSessionControl(SESSION_PROGRAMMING), ENABLED, now);
      && Verdict(Final(o), SID_SESSION_CONTROL).Ok? && !o.installs
      && Open(o.state, now) && o.state.lockedUntil == s.lockedUntil
  {
  }

  lemma PresenceKeepsOpen(cfg: Config, s: ProgrammerState, at: real, now: real)
    requires Open(s, at) && now - at <= SESSION_TIMEOUT
    ensures var o := Handle(cfg, s, BuildTesterPresent(), ENABLED, now);
      && Verdict(Final(o), SID_TESTER_PRESENT).Ok? && !o.installs
      && Open(o.state, now) && o.state.lockedUntil == s.lockedUntil
  {
  }

  lemma SeedIsGiven(cfg: Config, s: ProgrammerState, at: real, now: real)
    requires Open(s, at) && now - at <= SESSION_TIMEOUT && s.lockedUntil <= now
    ensures var o := Handle(cfg, s, BuildRequestSeed(), ENABLED, now);
      && Verdict(Final(o), SID_SECURITY_ACCESS).Ok? && !o.installs
      && Open(o.state, now) && o.state.pendingSeed != [] && Final(o)[2..] == o.state.pendingSeed
  {
    ServedInSession(cfg, s, BuildRequestSeed(), at, now);
  }

  lemma RightKeyUnlocks(cfg: Config, s: ProgrammerState, at: real, now: real)
    requires Open(s, at) && now - at <= SESSION_TIMEOUT && s.pendingSeed != []
    ensures var o := Handle(cfg, s, BuildSendKey(cfg.deriveKey(s.pendingSeed)), ENABLED, now);
      Verdict(Final(o), SID_SECURITY_ACCESS).Ok? && !o.installs && Unlocked(o.state, now)
  {
    var p := BuildSendKey(cfg.deriveKey(s.pendingSeed));
    assert p[2..] == cfg.deriveKey(s.pendingSeed);
    ServedInSession(cfg, s, p, at, now);
  }

  lemma EraseSucceeds(cfg: Config, s: ProgrammerState, at: real, now: real, size: nat)
    requires Unlocked(s, at) && now - at <= SESSION_TIMEOUT && size < TWO_POW_32
    ensures var o := Handle(cfg, s, BuildRoutine(ROUTINE_ERASE, U32(size)), ENABLED, now);
      Verdict(Final(o), SID_ROUTINE_CONTROL).Ok? && !o.installs && Unlocked(o.state, now) && o.state.eraseCompleted
  {
    var p := BuildRoutine(ROUTINE_ERASE, U32(size));
    assert p[2..4] == U16(ROUTINE_ERASE);
    U16RoundTrip(ROUTINE_ERASE);
    ServedInSession(cfg, s, p, at, now);
  }

  lemma DownloadStarts(cfg: Config, s: ProgrammerState, at: real, now: real, size: nat)
    requires Unlocked(s, at) && s.eraseCompleted && now - at <= SESSION_TIMEOUT && size < TWO_POW_32
    ensures var o := Handle(cfg, s, BuildRequestDownload(size), ENABLED, now);
      && Verdict(Final(o), SID_REQUEST_DOWNLOAD).Ok? && !o.installs
      && Loading(o.state, now, size, []) && o.state.sequence == 1
  {
    var p := BuildRequestDownload(size);
    assert p[|p| - 4..] == U32(size);
    U32RoundTrip(size);
    ServedInSession(cfg, s, p, at, now);
  }

  lemma BlockIsAppended(cfg: Config, s: ProgrammerState, at: real, now: real, size: nat, done: Bytes, chunk: Bytes)
    requires Loading(s, at, size, done) && now - at <= SESSION_TIMEOUT
    requires chunk != [] && |done| + |chunk| <= size
    ensures var o := Handle(cfg, s, BuildTransferData(s.sequence, chunk), ENABLED, now);
      && Final(o) == [PositiveSid(SID_TRANSFER_DATA), s.sequence] && !o.installs
      && Loading(o.state, now, size, done + chunk) && o.state.sequence == (s.sequence + 1) % 256
  {
    var p := BuildTransferData(s.sequence, chunk);
    assert p[2..] == chunk;
    assert chunk[..|chunk|] == chunk;
    ServedInSession(cfg, s, p, at, now);
  }

  lemma ExitVerifies(cfg: Config, s: ProgrammerState, at: real, now: real, firmware: Bytes)
    requires Loading(s, at, |firmware|, firmware) && now - at <= SESSION_TIMEOUT
    ensures var o := Handle(cfg, s, BuildTransferExit(), ENABLED, now);
      && !o.installs && o.state.receiver.buffer == firmware && o.state.receiver.saved == Some(firmware)
      && Verdict(Final(o), SID_TRANSFER_EXIT) == (if cfg.digest(cfg.original) == cfg.digest(firmware)
                                                  then Ok([PositiveSid(SID_TRANSFER_EXIT)])
                                                  else Err(Rejected(NRC_PROGRAMMING_FAILURE)))
      && (cfg.digest(cfg.original) == cfg.digest(firmware) ==> Loaded(o.state, now, firmware))
  {
    ServedInSession(cfg, s, BuildTransferExit(), at, now);
    assert s.receiver.FirmwareData() == firmware;
  }

  lemma RoutineOnLoaded(cfg: Config, s: ProgrammerState, at: real, now: real, firmware: Bytes, routine: nat)
    requires Loaded(s, at, firmware) && now - at <= SESSION_TIMEOUT && routine in {ROUTINE_VERIFY, ROUTINE_ACTIVATE}
    ensures var o := Handle(cfg, s, BuildRoutine(routine, []), ENABLED, now);
      && Verdict(Final(o), SID_ROUTINE_CONTROL).Ok? && !o.installs && Loaded(o.state, now, firmware)
      && (routine == ROUTINE_ACTIVATE ==> o.state.activationMarked) && o.state.receiver == s.receiver
  {
    var p := BuildRoutine(routine, []);
    assert p[2..4] == U16(routine);
    U16RoundTrip(routine);
    ServedInSession(cfg, s, p, at, now);
  }

  lemma ResetStartsInstall(cfg: Config, s: ProgrammerState, at: real, now: real, firmware: Bytes)
    requires Loaded(s, at, firmware) && s.activationMarked && now - at <= SESSION_TIMEOUT
    ensures var o := Handle(cfg, s, BuildEcuReset(), ENABLED, now);
      Verdict(Final(o), SID_ECU_RESET).Ok? && o.installs && o.state.receiver == s.receiver
  {
    ServedInSession(cfg, s, BuildEcuReset(), at, now);
  }

  // ----- the tester

  /**
   The link to one ECU, and the tester's operations over it. Request `n` is sent `delay(n)` seconds after the one
   before.
   */
  class Transport {
    const ecu: UDSCanProgrammer
    const deriveKey: Bytes -> Bytes
    const delay: nat -> real
    const maxTransferPayload: nat
    var now: real
    var requests: nat
    /** Responses of the ECU that the tester has taken off the link. */
    var taken: nat
    /** The requests sent so far. */
    ghost var asked: seq<Bytes>

    constructor (ecu: UDSCanProgrammer, deriveKey: Bytes -> Bytes, delay: nat -> real, maxTransferPayload: nat,
                 now: real)
      ensures this.ecu == ecu && this.deriveKey == deriveKey && this.delay == delay
      ensures this.maxTransferPayload == maxTransferPayload && this.now == now && taken == |ecu.sent|
      ensures asked == []
    {
      this.ecu, this.deriveKey, this.delay, this.maxTransferPayload := ecu, deriveKey, delay, maxTransferPayload;
      this.now, requests, taken, asked := now, 0, |ecu.sent|, [];
    }

    /** Nothing is waiting on the link, and both sides derive the same keys. */
    ghost predicate Ready()
      reads this, ecu, ecu.receiver
    {
      && taken == |ecu.sent| && deriveKey == ecu.cfg.deriveKey && maxTransferPayload >= 1
      && forall n: nat :: 0.0 <= delay(n) <= SESSION_TIMEOUT
    }

    method Receive() returns (r: Option<Bytes>)
      requires taken <= |ecu.sent|
      modifies this`taken
      ensures old(taken) == |ecu.sent| ==> r.None? && taken == old(taken)
      ensures old(taken) < |ecu.sent| ==> r == Some(ecu.sent[old(taken)]) && taken == old(taken) + 1
    {
      if taken == |ecu.sent| {
        return None;
      }
      r := Some(ecu.sent[taken]);
      taken := taken + 1;
    }

    /** `_receive_raw_diagnostic` and `_expect_positive_response`: waits while the ECU says "response pending". */
    method ExpectPositive(sid: byte) returns (r: Result<Bytes, FlashError>)
      requires taken <= |ecu.sent|
      modifies this`taken
      ensures r == Answer(ecu.sent[old(taken)..], sid)
      ensures old(taken) <= taken <= |ecu.sent|
      ensures forall i | old(taken) <= i < taken - 1 :: IsResponsePending(ecu.sent[i], sid)
      ensures taken == |ecu.sent| || (taken > old(taken) && !IsResponsePending(ecu.sent[taken - 1], sid))
    {
      var current := Receive();
      while current.Some? && IsResponsePending(current.value, sid)
        invariant old(taken) <= taken <= |ecu.sent|
        invariant current.None? ==> taken == |ecu.sent| && Answer(ecu.sent[old(taken)..], sid) == Err(TimedOut)
        invariant current.Some? ==> old(taken) < taken && current.value == ecu.sent[taken - 1]
        invariant current.Some? ==> Answer(ecu.sent[old(taken)..], sid) == Answer(ecu.sent[taken - 1..], sid)
        invariant forall i | old(taken) <= i < taken - 1 :: IsResponsePending(ecu.sent[i], sid)
        decreases |ecu.sent| - taken, current.Some?
      {
        assert ecu.sent[taken - 1..][1..] == ecu.sent[taken..];
        current := Receive();
      }
      if current.None? {
        return Err(TimedOut);
      }
      return Verdict(current.value, sid);
    }

    /** Reading up to the first response that is not "response pending" leaves nothing on the link. */
    method ExpectAnswer(sid: byte, ghost o: Outcome) returns (r: Result<Bytes, FlashError>)
      requires taken <= |ecu.sent| && ecu.sent[taken..] == o.responses && AnswersOnce(o, sid)
      modifies this`taken
      ensures taken == |ecu.sent| && r == Verdict(Final(o), sid)
    {
      AnswerIsFinal(o, sid);
      r := ExpectPositive(sid);
    }

    /** One request and its final answer. */
    method Exchange(p: Bytes) returns (r: Result<Bytes, FlashError>)
      requires Ready() && p != []
      modifies this, ecu, ecu.receiver
      ensures Ready() && now == old(now) + delay(old(requests)) && requests == old(requests) + 1
      ensures asked == old(asked) + [p]
      ensures ecu.Did(Handle(ecu.cfg, old(ecu.State()), p, ENABLED, now))
      ensures var o := Handle(ecu.cfg, old(ecu.State()), p, ENABLED, now);
        o.responses != [] && r == Verdict(Final(o), p[0])
    {
      now, requests, asked := now + delay(requests), requests + 1, asked + [p];
      ghost var o := Handle(ecu.cfg, ecu.State(), p, ENABLED, now);
      EveryRequestIsAnswered(ecu.cfg, ecu.State(), p, ENABLED, now);
      ecu.HandleUds(p, ENABLED, now);
      assert ecu.sent[taken..] == o.responses;
      r := ExpectAnswer(p[0], o);
    }

    method DiagnosticSessionControl() returns (r: Result<Bytes, FlashError>)
      requires Ready()
      modifies this, ecu, ecu.receiver
      ensures Ready() && ecu.installs == old(ecu.installs)
      ensures asked == old(asked) + [BuildSessionControl(SESSION_PROGRAMMING)]
      ensures r.Ok? && Open(ecu.State(), now) && now >= old(now)
        && ecu.securityLockedUntil == old(ecu.securityLockedUntil)
    {
      SessionOpens(ecu.cfg, ecu.State(), now + delay(requests));
      r := Exchange(BuildSessionControl(SESSION_PROGRAMMING));
    }

    method TesterPresent() returns (r: Result<Bytes, FlashError>)
      requires Ready() && Open(ecu.State(), now)
      modifies this, ecu, ecu.receiver
      ensures Ready() && ecu.installs == old(ecu.installs)
      ensures asked == old(asked) + [BuildTesterPresent()]
      ensures r.Ok? && Open(ecu.State(), now) && now >= old(now)
        && ecu.securityLockedUntil == old(ecu.securityLockedUntil)
    {
      PresenceKeepsOpen(ecu.cfg, ecu.State(), now, now + delay(requests));
      r := Exchange(BuildTesterPresent());
    }

    method RequestSeed() returns (r: Result<Bytes, FlashError>)
      requires Ready() && Open(ecu.State(), now) && ecu.securityLockedUntil <= now
      modifies this, ecu, ecu.receiver
      ensures Ready() && ecu.installs == old(ecu.installs)
      ensures asked == old(asked) + [BuildRequestSeed()]
      ensures r.Ok? && Open(ecu.State(), now) && ecu.pendingSeed != []
      ensures |r.value| >= 2 && r.value[2..] == ecu.pendingSeed
    {
      SeedIsGiven(ecu.cfg, ecu.State(), now, now + delay(requests));
      r := Exchange(BuildRequestSeed());
    }

    method SendKey(seed: Bytes) returns (r: Result<Bytes, FlashError>)
      requires Ready() && Open(ecu.State(), now) && seed == ecu.pendingSeed != []
      modifies this, ecu, ecu.receiver
      ensures Ready() && ecu.installs == old(ecu.installs)
      ensures asked == old(asked) + [BuildSendKey(deriveKey(seed))]
      ensures r.Ok? && Unlocked(ecu.State(), now)
    {
      RightKeyUnlocks(ecu.cfg, ecu.State(), now, now + delay(requests));
      r := Exchange(BuildSendKey(deriveKey(seed)));
    }

    method EraseMemory(size: nat) returns (r: Result<Bytes, FlashError>)
      requires Ready() && Unlocked(ecu.State(), now) && size < TWO_POW_32
      modifies this, ecu, ecu.receiver
      ensures Ready() && ecu.installs == old(ecu.installs)
      ensures asked == old(asked) + [BuildRoutine(ROUTINE_ERASE, U32(size))]
      ensures r.Ok? && Unlocked(ecu.State(), now) && ecu.eraseCompleted
    {
      EraseSucceeds(ecu.cfg, ecu.State(), now, now + delay(requests), size);
      r := Exchange(BuildRoutine(ROUTINE_ERASE, U32(size)));
    }

    method RequestDownload(size: nat) returns (r: Result<Bytes, FlashError>)
      requires Ready() && Unlocked(ecu.State(), now) && ecu.eraseCompleted && size < TWO_POW_32
      modifies this, ecu, ecu.receiver
      ensures Ready() && ecu.installs == old(ecu.installs)
      ensures asked == old(asked) + [BuildRequestDownload(size)]
      ensures r.Ok? && Loading(ecu.State(), now, size, []) && ecu.expectedTransferSequence == 1
    {
      DownloadStarts(ecu.cfg, ecu.State(), now, now + delay(requests), size);
      r := Exchange(BuildRequestDownload(size));
    }

    /** `transfer_data` when no response is late or lost: one attempt is enough. */
    method TransferData(sequence: byte, chunk: Bytes, ghost size: nat, ghost done: Bytes)
      returns (r: Result<Bytes, FlashError>)
      requires Ready() && Loading(ecu.State(), now, size, done) && sequence == ecu.expectedTransferSequence
      requires chunk != [] && |done| + |chunk| <= size
      modifies this, ecu, ecu.receiver
      ensures Ready() && ecu.installs == old(ecu.installs)
      ensures asked == old(asked) + [BuildTransferData(sequence, chunk)]
      ensures r.Ok? && Loading(ecu.State(), now, size, done + chunk)
      ensures ecu.expectedTransferSequence == (sequence + 1) % 256
    {
      BlockIsAppended(ecu.cfg, ecu.State(), now, now + delay(requests), size, done, chunk);
      r := Exchange(BuildTransferData(sequence, chunk));
      match r
      case Err(_) =>
      case Ok(response) =>
        if |response| < 2 || response[1] != sequence {
          r := Err(Unexpected(response));
        }
    }

    method RequestTransferExit(ghost firmware: Bytes) returns (r: Result<Bytes, FlashError>)
      requires Ready() && Loading(ecu.State(), now, |firmware|, firmware)
      modifies this, ecu, ecu.receiver
      ensures Ready() && ecu.installs == old(ecu.installs)
      ensures asked == old(asked) + [BuildTransferExit()]
      ensures r.Ok? <==> ecu.cfg.digest(ecu.cfg.original) == ecu.cfg.digest(firmware)
      ensures r.Err? ==> r == Err(Rejected(NRC_PROGRAMMING_FAILURE))
      ensures r.Ok? ==> Loaded(ecu.State(), now, firmware)
      ensures ecu.receiver.buffer == firmware && ecu.receiver.saved == Some(firmware)
    {
      ExitVerifies(ecu.cfg, ecu.State(), now, now + delay(requests), firmware);
      r := Exchange(BuildTransferExit());
    }

    method VerifyProgramming(ghost firmware: Bytes) returns (r: Result<Bytes, FlashError>)
      requires Ready() && Loaded(ecu.State(), now, firmware)
      modifies this, ecu, ecu.receiver
      ensures Ready() && ecu.installs == old(ecu.installs)
      ensures asked == old(asked) + [BuildRoutine(ROUTINE_VERIFY, [])]
      ensures r.Ok? && Loaded(ecu.State(), now, firmware) && ecu.receiver.State() == old(ecu.receiver.State())
    {
      RoutineOnLoaded(ecu.cfg, ecu.State(), now, now + delay(requests), firmware, ROUTINE_VERIFY);
      r := Exchange(BuildRoutine(ROUTINE_VERIFY, []));
    }

    method ActivateImage(ghost firmware: Bytes) returns (r: Result<Bytes, FlashError>)
      requires Ready() && Loaded(ecu.State(), now, firmware)
      modifies this, ecu, ecu.receiver
      ensures Ready() && ecu.installs == old(ecu.installs)
      ensures asked == old(asked) + [BuildRoutine(ROUTINE_ACTIVATE, [])]
      ensures r.Ok? && Loaded(ecu.State(), now, firmware) && ecu.activationMarked
        && ecu.receiver.State() == old(ecu.receiver.State())
    {
      RoutineOnLoaded(ecu.cfg, ecu.State(), now, now + delay(requests), firmware, ROUTINE_ACTIVATE);
      r := Exchange(BuildRoutine(ROUTINE_ACTIVATE, []));
    }

    method EcuReset(ghost firmware: Bytes) returns (r: Result<Bytes, FlashError>)
      requires Ready() && Loaded(ecu.State(), now, firmware) && ecu.activationMarked
      modifies this, ecu, ecu.receiver
      ensures Ready() && ecu.installs == old(ecu.installs) + 1
      ensures asked == old(asked) + [BuildEcuReset()]
      ensures r.Ok? && ecu.receiver.State() == old(ecu.receiver.State())
    {
      ResetStartsInstall(ecu.cfg, ecu.State(), now, now + delay(requests), firmware);
      r := Exchange(BuildEcuReset());
    }
  }

  // ----- the requests of a session

  /** Session, tester present, seed and key. */
  function Opening(key: Bytes): seq<Bytes> {
    [BuildSessionControl(SESSION_PROGRAMMING), BuildTesterPresent(), BuildRequestSeed(), BuildSendKey(key)]
  }

  /** The first `n` blocks, numbered from 1; the number is cut to a byte. */
  function BlockRequests(chunks: seq<Bytes>, n: nat): seq<Bytes>
    requires n <= |chunks|
  {
    if n == 0 then [] else BlockRequests(chunks, n - 1) + [BuildTransferData(n, chunks[n - 1])]
  }

  /** The exit, and, if it was answered positively, what starts the installation. */
  function Closing(passed: bool): seq<Bytes> {
    if passed then [BuildTransferExit(), BuildRoutine(ROUTINE_VERIFY, []), BuildRoutine(ROUTINE_ACTIVATE, [])]
    else [BuildTransferExit()]
  }

  /** Everything the tester asks for in a session. */
  function Script(key: Bytes, firmware: Bytes, chunkSize: nat, passed: bool): seq<Bytes>
    requires |firmware| < TWO_POW_32 && chunkSize >= 1
  {
    var chunks := Cut(firmware, chunkSize);
    Opening(key) + [BuildRoutine(ROUTINE_ERASE, U32(|firmware|))] + [BuildRequestDownload(|firmware|)]
    + BlockRequests(chunks, |chunks|) + Closing(passed) + if passed then [BuildEcuReset()] else []
  }

  lemma JoinScript(asked: seq<Bytes>, key: Bytes, firmware: Bytes, chunkSize: nat, passed: bool)
    requires |firmware| < TWO_POW_32 && chunkSize >= 1
    ensures var chunks := Cut(firmware, chunkSize);
      asked + Opening(key) + [BuildRoutine(ROUTINE_ERASE, U32(|firmware|))] + [BuildRequestDownload(|firmware|)]
      + BlockRequests(chunks, |chunks|) + Closing(passed) + (if passed then [BuildEcuReset()] else [])
      == asked + Script(key, firmware, chunkSize, passed)
  {
    var chunks := Cut(firmware, chunkSize);
    JoinAll(asked, Opening(key), [BuildRoutine(ROUTINE_ERASE, U32(|firmware|))], [BuildRequestDownload(|firmware|)],
            BlockRequests(chunks, |chunks|), Closing(passed), if passed then [BuildEcuReset()] else []);
  }

  lemma JoinAll<T>(z: seq<T>, a: seq<T>, b: seq<T>, c: seq<T>, d: seq<T>, e: seq<T>, f: seq<T>)
    ensures z + a + b + c + d + e + f == z + (a + b + c + d + e + f)
  {
  }

  // ----- the block loop

  /** Block `k` is next, and what is before it has been asked for and has arrived. */
  ghost predicate AtBlock(t: Transport, firmware: Bytes, chunks: seq<Bytes>, i: nat, k: nat, sequence: byte,
                          asked: seq<Bytes>)
    reads t, t.ecu, t.ecu.receiver
  {
    && t.Ready() && StartsAt(chunks, firmware, t.maxTransferPayload, i, k)
    && Loading(t.ecu.State(), t.now, |firmware|, firmware[..i])
    && sequence == t.ecu.expectedTransferSequence == (1 + k) % 256
    && t.asked == asked + BlockRequests(chunks, k)
  }

  lemma StartBlocks(t: Transport, firmware: Bytes, chunks: seq<Bytes>, asked: seq<Bytes>)
    requires t.Ready() && Loading(t.ecu.State(), t.now, |firmware|, [])
    requires t.ecu.expectedTransferSequence == 1 && asked == t.asked
    requires chunks == Cut(firmware, t.maxTransferPayload)
    ensures AtBlock(t, firmware, chunks, 0, 0, 1, asked)
  {
    assert firmware[..0] == [] && firmware[0..] == firmware && chunks[0..] == chunks;
  }

  lemma EndBlocks(t: Transport, firmware: Bytes, chunks: seq<Bytes>, k: nat, sequence: byte, asked: seq<Bytes>)
    requires AtBlock(t, firmware, chunks, |firmware|, k, sequence, asked)
    ensures Loading(t.ecu.State(), t.now, |firmware|, firmware)
    ensures t.asked == asked + BlockRequests(chunks, |chunks|)
  {
    assert firmware[..|firmware|] == firmware && firmware[|firmware|..] == [];
    assert k == |chunks|;
  }

  class FlashManager {
    const transport: Transport

    constructor (transport: Transport)
      ensures this.transport == transport
    {
      this.transport := transport;
    }

    method EnterProgramming() returns (r: Result<Bytes, FlashError>, ghost key: Bytes)
      requires transport.Ready() && transport.ecu.securityLockedUntil <= transport.now
      modifies transport, transport.ecu, transport.ecu.receiver
      ensures transport.Ready() && transport.ecu.installs == old(transport.ecu.installs)
      ensures r.Ok? && Unlocked(transport.ecu.State(), transport.now)
      ensures transport.asked == old(transport.asked) + Opening(key)
    {
      key := [];
      r := transport.DiagnosticSessionControl();
      if r.Err? {
        return;
      }
      r := transport.TesterPresent();
      if r.Err? {
        return;
      }
      r := transport.RequestSeed();
      if r.Err? {
        return;
      }
      key := transport.deriveKey(r.value[2..]);
      r := transport.SendKey(r.value[2..]);
    }

    /** The chunk loop: an 8-bit block counter from 1, wrapping after 0xFF. */
    method TransferData(firmware: Bytes) returns (r: Result<Bytes, FlashError>)
      requires transport.Ready() && Loading(transport.ecu.State(), transport.now, |firmware|, [])
      requires transport.ecu.expectedTransferSequence == 1
      modifies transport, transport.ecu, transport.ecu.receiver
      ensures transport.Ready() && transport.ecu.installs == old(transport.ecu.installs)
      ensures r.Ok? && Loading(transport.ecu.State(), transport.now, |firmware|, firmware)
      ensures var chunks := Cut(firmware, transport.maxTransferPayload);
        transport.asked == old(transport.asked) + BlockRequests(chunks, |chunks|)
    {
      var sequence: byte := 1;
      var i := 0;
      ghost var chunks, k: nat, asked := Cut(firmware, transport.maxTransferPayload), 0, transport.asked;
      StartBlocks(transport, firmware, chunks, asked);
      while i < |firmware|
        invariant AtBlock(transport, firmware, chunks, i, k, sequence, asked)
        invariant transport.ecu.installs == old(transport.ecu.installs)
      {
        var next := i + transport.maxTransferPayload;
        if next > |firmware| {
          next := |firmware|;
        }
        r := TransferNext(firmware, i, next, sequence, chunks, k, asked);
        if r.Err? {
          return;
        }
        sequence := (sequence + 1) % 256;
        i := next;
        k := k + 1;
      }
      EndBlocks(transport, firmware, chunks, k, sequence, asked);
      r := Ok([]);
    }

    /** One turn of the chunk loop. */
    method TransferNext(firmware: Bytes, i: nat, next: nat, sequence: byte, ghost chunks: seq<Bytes>, ghost k: nat,
                        ghost asked: seq<Bytes>)
      returns (r: Result<Bytes, FlashError>)
      requires AtBlock(transport, firmware, chunks, i, k, sequence, asked) && i < |firmware|
      requires next == NextStart(|firmware|, transport.maxTransferPayload, i)
      modifies transport, transport.ecu, transport.ecu.receiver
      ensures r.Ok? && AtBlock(transport, firmware, chunks, next, k + 1, (sequence + 1) % 256, asked)
      ensures transport.ecu.installs == old(transport.ecu.installs)
    {
      CutStep(firmware, transport.maxTransferPayload, i, chunks, k);
      NextCounter(k);
      assert firmware[..i] + firmware[i..next] == firmware[..next];
      r := transport.TransferData(sequence, firmware[i..next], |firmware|, firmware[..i]);
    }

    method TransferExit(ghost firmware: Bytes) returns (r: Result<Bytes, FlashError>)
      requires transport.Ready() && Loading(transport.ecu.State(), transport.now, |firmware|, firmware)
      modifies transport, transport.ecu, transport.ecu.receiver
      ensures transport.Ready() && transport.ecu.installs == old(transport.ecu.installs)
      ensures transport.ecu.receiver.buffer == firmware && transport.ecu.receiver.saved == Some(firmware)
      ensures r.Ok? <==> transport.ecu.cfg.digest(transport.ecu.cfg.original) == transport.ecu.cfg.digest(firmware)
      ensures r.Err? ==> r == Err(Rejected(NRC_PROGRAMMING_FAILURE))
      ensures r.Ok? ==> Loaded(transport.ecu.State(), transport.now, firmware) && transport.ecu.activationMarked
      ensures transport.asked == old(transport.asked) + Closing(r.Ok?)
    {
      r := transport.RequestTransferExit(firmware);
      if r.Err? {
        return;
      }
      r := transport.VerifyProgramming(firmware);
      if r.Err? {
        return;
      }
      r := transport.ActivateImage(firmware);
    }
  }

  class UDSClient {
    const transport: Transport
    const flash: FlashManager

    constructor (transport: Transport)
      ensures this.transport == transport && flash.transport == transport
    {
      this.transport := transport;
      flash := new FlashManager(transport);
    }

    /**
     Flashes any ECU that is not locked out, whatever it was doing before. Whatever the chunk size and the pauses
     between requests (up to the session timeout), the ECU ends up holding exactly the firmware; every request up to
     the transfer exit is answered positively; the exit is refused only when the digests differ, and otherwise exactly
     one installation starts. The requests of a session are always the same, but for the key.
     */
    method FlashFirmware(firmware: Bytes) returns (r: Result<Bytes, FlashError>, ghost key: Bytes)
      requires flash.transport == transport && transport.Ready()
      requires transport.ecu.securityLockedUntil <= transport.now && |firmware| < TWO_POW_32
      modifies transport, transport.ecu, transport.ecu.receiver
      ensures transport.ecu.receiver.buffer == firmware && transport.ecu.receiver.saved == Some(firmware)
      ensures var same := transport.ecu.cfg.digest(transport.ecu.cfg.original) == transport.ecu.cfg.digest(firmware);
        && (r.Ok? <==> same)
        && (!same ==> r == Err(Rejected(NRC_PROGRAMMING_FAILURE)))
        && transport.ecu.installs == old(transport.ecu.installs) + if same then 1 else 0
      ensures transport.asked == old(transport.asked) + Script(key, firmware, transport.maxTransferPayload, r.Ok?)
    {
      ghost var asked, size := transport.asked, transport.maxTransferPayload;
      r, key := flash.EnterProgramming();
      if r.Err? {
        return;
      }
      r := transport.EraseMemory(|firmware|);
      if r.Err? {
        return;
      }
      r := transport.RequestDownload(|firmware|);
      if r.Err? {
        return;
      }
      r := flash.TransferData(firmware);
      if r.Err? {
        return;
      }
      r := flash.TransferExit(firmware);
      JoinScript(asked, key, firmware, size, r.Ok?);
      if r.Err? {
        return;
      }
      r := transport.EcuReset(firmware);
    }
  }
}
