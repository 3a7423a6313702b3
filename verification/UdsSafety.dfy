/** What holds over every run of requests to a `UDSCanProgrammer` (ecus/base/uds_can_programmer.py). */
module UdsSafety {
  import opened Base
  import opened UdsCodec
  import opened UdsProgrammer
  import opened LossyTransfer

  /** A request, the runtime switches and the clock when it is handled. */
  datatype Event = Event(now: real, control: Control, payload: Bytes)

  function Do(cfg: Config, s: ProgrammerState, e: Event): Outcome {
    Handle(cfg, s, e.payload, e.control, e.now)
  }

  /** One request of a run and what the ECU made of it. */
  datatype Entry = Entry(event: Event, outcome: Outcome)

  type History = seq<Entry>

  /** The ECU before request `n`. */
  function StateAt(h: History, n: nat): ProgrammerState
    requires n <= |h|
  {
    if n == 0 then INITIAL else h[n - 1].outcome.state
  }

  ghost predicate Recorded(cfg: Config, h: History, i: nat)
    requires i < |h|
  {
    h[i].outcome == Do(cfg, StateAt(h, i), h[i].event)
  }

  /** A run of the ECU from its initial state: every outcome is the one the request handler gives. */
  ghost predicate IsRun(cfg: Config, h: History) {
    forall i: nat {:trigger Recorded(cfg, h, i)} | i < |h| :: Recorded(cfg, h, i)
  }

  /** The run that a list of requests leads to. */
  function RunOf(cfg: Config, es: seq<Event>): (h: History)
    ensures |h| == |es| && IsRun(cfg, h) && forall i | 0 <= i < |h| :: h[i].event == es[i]
  {
    if es == [] then []
    else
      var front, e := RunOf(cfg, es[..|es| - 1]), es[|es| - 1];
      var h := front + [Entry(e, Do(cfg, StateAt(front, |front|), e))];
      assert IsRun(cfg, h) by {
        forall i: nat | i < |h| ensures Recorded(cfg, h, i) {
          if i < |front| { assert Recorded(cfg, front, i); }
        }
      }
      h
  }

  /** The clock starts at zero or later and never goes back. */
  ghost predicate Timed(h: History) {
    && (forall i | 0 <= i < |h| :: h[i].event.now >= 0.0)
    && forall i, j | 0 <= i < j < |h| :: h[i].event.now <= h[j].event.now
  }

  // ----- what can be seen on the bus

  /** The final answer to a request for service `sid` was positive. */
  predicate Answered(e: Event, o: Outcome, sid: byte) {
    && e.payload != [] && e.payload[0] == sid
    && o.responses != [] && IsPositiveResponse(o.responses[|o.responses| - 1], sid)
  }

  predicate IsSession(e: Event, o: Outcome) {
    Answered(e, o, SID_SESSION_CONTROL)
  }

  predicate IsKeyAccepted(e: Event, o: Outcome) {
    Answered(e, o, SID_SECURITY_ACCESS) && |e.payload| >= 2 && e.payload[1] == SEND_KEY
  }

  predicate IsKeyRejected(e: Event, o: Outcome) {
    && |e.payload| >= 2 && e.payload[0] == SID_SECURITY_ACCESS && e.payload[1] == SEND_KEY
    && (o.responses == [Negative(SID_SECURITY_ACCESS, NRC_INVALID_KEY)]
     || o.responses == [Negative(SID_SECURITY_ACCESS, NRC_EXCEED_ATTEMPTS)])
  }

  predicate IsRoutine(e: Event, o: Outcome, routine: nat) {
    Answered(e, o, SID_ROUTINE_CONTROL) && |e.payload| >= 4 && FromBigEndian(e.payload[2..4]) == routine
  }

  predicate IsErase(e: Event, o: Outcome) {
    IsRoutine(e, o, ROUTINE_ERASE)
  }

  predicate IsActivation(e: Event, o: Outcome) {
    IsRoutine(e, o, ROUTINE_ACTIVATE)
  }

  predicate IsDownload(e: Event, o: Outcome) {
    Answered(e, o, SID_REQUEST_DOWNLOAD)
  }

  predicate IsExit(e: Event, o: Outcome) {
    Answered(e, o, SID_TRANSFER_EXIT)
  }

  predicate IsReset(e: Event, o: Outcome) {
    Answered(e, o, SID_ECU_RESET)
  }

  // ----- invariants of one state

  ghost predicate Consistent(s: ProgrammerState) {
    && !s.installStarted
    && (s.installPending ==> !s.downloadRequested)
    && (s.downloadRequested ==>
          && s.eraseCompleted && s.receivedSize == |s.receiver.buffer| <= s.expectedSize
          && s.sequence == (1 + s.receiver.chunkCount) % 256 && s.receiver.expectedSize == Some(s.expectedSize))
    && (s.session != SESSION_PROGRAMMING ==>
          && !s.unlocked && !s.eraseCompleted && !s.downloadRequested && !s.installPending && !s.activationMarked
          && s.pendingSeed == [])
  }

  /** The counters of a running transfer: bytes against the buffer and the size, blocks against the block counter. */
  predicate Counted(t: Transfer) {
    t.receivedSize == |t.buffer| <= t.expectedSize && t.sequence == (1 + t.chunkCount) % 256
  }

  lemma BlockStaysCounted(t: Transfer, sequence: byte, data: Bytes)
    requires Counted(t)
    ensures Counted(AcceptBlock(t, sequence, data).0)
  {
    var (u, verdict) := AcceptBlock(t, sequence, data);
    NextCounter(t.chunkCount);
    if verdict == Accepted {
      assert u.sequence == (t.sequence + 1) % 256 && u.chunkCount == t.chunkCount + 1;
    }
  }

  lemma TransferStaysConsistent(s: ProgrammerState, p: Bytes)
    requires Consistent(s) && p != []
    ensures Consistent(TransferData(s, p).state)
  {
    if |p| >= 2 && s.downloadRequested {
      BlockStaysCounted(TransferOf(s), p[1], p[2..]);
    }
  }

  lemma SecurityStaysConsistent(cfg: Config, s: ProgrammerState, p: Bytes, now: real)
    requires Consistent(s) && s.session == SESSION_PROGRAMMING && p != []
    ensures Consistent(SecurityAccess(cfg, s, p, now).state)
  {
  }

  lemma RoutineStaysConsistent(s: ProgrammerState, p: Bytes)
    requires Consistent(s) && s.session == SESSION_PROGRAMMING && p != []
    ensures Consistent(RoutineControl(s, p).state)
  {
  }

  lemma InSessionStaysConsistent(cfg: Config, s: ProgrammerState, p: Bytes, now: real)
    requires Consistent(s) && s.session == SESSION_PROGRAMMING && p != [] && IsProgrammingService(p[0])
    ensures Consistent(InSession(cfg, s, p, now).state)
  {
    if p[0] == SID_SECURITY_ACCESS {
      SecurityStaysConsistent(cfg, s, p, now);
    } else if p[0] == SID_ROUTINE_CONTROL {
      RoutineStaysConsistent(s, p);
    } else if p[0] == SID_TRANSFER_DATA {
      TransferStaysConsistent(s, p);
    }
  }

  lemma StepStaysConsistent(cfg: Config, s: ProgrammerState, e: Event)
    requires Consistent(s)
    ensures Consistent(Do(cfg, s, e).state)
  {
    if e.payload != [] && IsProgrammingService(e.payload[0]) {
      var t := Expire(s, e.now);
      if t.session == SESSION_PROGRAMMING {
        InSessionStaysConsistent(cfg, t.(sessionStartedAt := e.now), e.payload, e.now);
      }
    }
  }

  /**
   In every reachable state: a running download has been erased for, its counters match the buffer and the
   block counter is the number of blocks modulo 256; an image that waits for installation is not being
   transferred; outside a programming session nothing is unlocked, erased, transferred or pending.
   */
  lemma {:induction false} AlwaysConsistent(cfg: Config, h: History, n: nat)
    requires IsRun(cfg, h) && n <= |h|
    ensures Consistent(StateAt(h, n))
  {
    if n > 0 {
      AlwaysConsistent(cfg, h, n - 1);
      assert Recorded(cfg, h, n - 1);
      StepStaysConsistent(cfg, StateAt(h, n - 1), h[n - 1].event);
    }
  }

  // ----- where flags come from

  /** How one request can change what installation depends on. */
  ghost predicate FlagStep(cfg: Config, s: ProgrammerState, e: Event, o: Outcome) {
    var t := o.state;
    && (t.session == SESSION_PROGRAMMING ==> s.session == SESSION_PROGRAMMING || IsSession(e, o))
    && (IsSession(e, o) ==>
          !t.unlocked && !t.eraseCompleted && !t.downloadRequested && !t.installPending && !t.activationMarked)
    && (t.unlocked ==> IsKeyAccepted(e, o) || s.unlocked)
    && (IsErase(e, o) ==> s.unlocked) && (t.eraseCompleted ==> IsErase(e, o) || s.eraseCompleted)
    && (IsDownload(e, o) ==> s.eraseCompleted) && (t.downloadRequested ==> IsDownload(e, o) || s.downloadRequested)
    && (IsExit(e, o) ==> s.downloadRequested && t.installPending && t.receiver.Passes(cfg))
    && (t.installPending ==> !IsErase(e, o) && !IsDownload(e, o))
    && (t.installPending ==> IsExit(e, o) || (s.installPending && t.receiver == s.receiver))
    && (t.activationMarked ==> !IsErase(e, o) && (IsActivation(e, o) || s.activationMarked))
  }

  lemma SecurityFlags(cfg: Config, s: ProgrammerState, e: Event)
    requires Consistent(s) && s.session == SESSION_PROGRAMMING && e.payload != [] && e.payload[0] == SID_SECURITY_ACCESS
    ensures FlagStep(cfg, s, e, SecurityAccess(cfg, s, e.payload, e.now))
  {
  }

  lemma RoutineFlags(cfg: Config, s: ProgrammerState, e: Event)
    requires Consistent(s) && s.session == SESSION_PROGRAMMING && e.payload != [] && e.payload[0] == SID_ROUTINE_CONTROL
    ensures FlagStep(cfg, s, e, RoutineControl(s, e.payload))
  {
  }

  lemma DownloadFlags(cfg: Config, s: ProgrammerState, e: Event)
    requires Consistent(s) && s.session == SESSION_PROGRAMMING && e.payload != []
      && e.payload[0] == SID_REQUEST_DOWNLOAD
    ensures FlagStep(cfg, s, e, RequestDownload(s, e.payload))
  {
  }

  lemma BlockFlags(cfg: Config, s: ProgrammerState, e: Event)
    requires Consistent(s) && s.session == SESSION_PROGRAMMING && e.payload != [] && e.payload[0] == SID_TRANSFER_DATA
    ensures FlagStep(cfg, s, e, TransferData(s, e.payload))
  {
  }

  lemma InSessionFlags(cfg: Config, s: ProgrammerState, e: Event)
    requires Consistent(s) && s.session == SESSION_PROGRAMMING && e.payload != [] && IsProgrammingService(e.payload[0])
    ensures FlagStep(cfg, s, e, InSession(cfg, s, e.payload, e.now))
  {
    var sid := e.payload[0];
    if sid == SID_SECURITY_ACCESS {
      SecurityFlags(cfg, s, e);
    } else if sid == SID_ROUTINE_CONTROL {
      RoutineFlags(cfg, s, e);
    } else if sid == SID_REQUEST_DOWNLOAD {
      DownloadFlags(cfg, s, e);
    } else if sid == SID_TRANSFER_DATA {
      BlockFlags(cfg, s, e);
    }
  }

  lemma RefusedFlags(cfg: Config, s: ProgrammerState, e: Event)
    requires Consistent(s) && e.payload != [] && IsProgrammingService(e.payload[0])
    requires Expire(s, e.now).session != SESSION_PROGRAMMING
    ensures FlagStep(cfg, s, e, Refuse(Expire(s, e.now), e.payload[0], NRC_NOT_IN_SESSION))
  {
  }

  lemma FlagsComeFromRequests(cfg: Config, s: ProgrammerState, e: Event)
    requires Consistent(s)
    ensures FlagStep(cfg, s, e, Do(cfg, s, e))
  {
    var enabled := e.control.diagnosticsEnabled && e.control.programmingEnabled;
    if e.payload != [] && IsProgrammingService(e.payload[0]) && enabled {
      var t := Expire(s, e.now).(sessionStartedAt := e.now);
      if t.session == SESSION_PROGRAMMING {
        InSessionFlags(cfg, t, e);
        assert Do(cfg, s, e) == InSession(cfg, t, e.payload, e.now);
        assert t == s.(sessionStartedAt := e.now);
      } else {
        RefusedFlags(cfg, s, e);
      }
    } else {
      OtherFlags(cfg, s, e);
    }
  }

  lemma OtherFlags(cfg: Config, s: ProgrammerState, e: Event)
    requires Consistent(s)
    requires e.payload == [] || !IsProgrammingService(e.payload[0]) || !e.control.diagnosticsEnabled
      || !e.control.programmingEnabled
    ensures FlagStep(cfg, s, e, Do(cfg, s, e))
  {
  }

  /** How what an installation depends on survives one request. */
  ghost predicate KeepStep(s: ProgrammerState, e: Event, o: Outcome) {
    var t := o.state;
    && (IsExit(e, o) ==> t.installPending) && (IsActivation(e, o) ==> t.activationMarked && t.installPending)
    && (t.session == SESSION_PROGRAMMING && !IsSession(e, o) ==>
          && s.session == SESSION_PROGRAMMING
          && (s.installPending && !IsErase(e, o) && !IsDownload(e, o) ==> t.installPending)
          && (s.activationMarked && !IsErase(e, o) ==> t.activationMarked))
  }

  lemma FlagsAreKept(cfg: Config, s: ProgrammerState, e: Event)
    requires Consistent(s)
    ensures KeepStep(s, e, Do(cfg, s, e))
  {
    var enabled := e.control.diagnosticsEnabled && e.control.programmingEnabled;
    if e.payload != [] && IsProgrammingService(e.payload[0]) && enabled {
      var t := Expire(s, e.now).(sessionStartedAt := e.now);
      if t.session == SESSION_PROGRAMMING {
        InSessionKeeps(cfg, t, e);
        assert Do(cfg, s, e) == InSession(cfg, t, e.payload, e.now);
        assert t == s.(sessionStartedAt := e.now);
      }
    }
  }

  lemma SecurityKeeps(cfg: Config, s: ProgrammerState, e: Event)
    requires Consistent(s) && s.session == SESSION_PROGRAMMING && e.payload != [] && e.payload[0] == SID_SECURITY_ACCESS
    ensures KeepStep(s, e, SecurityAccess(cfg, s, e.payload, e.now))
  {
  }

  lemma RoutineKeeps(s: ProgrammerState, e: Event)
    requires Consistent(s) && s.session == SESSION_PROGRAMMING && e.payload != [] && e.payload[0] == SID_ROUTINE_CONTROL
    ensures KeepStep(s, e, RoutineControl(s, e.payload))
  {
  }

  lemma DownloadKeeps(s: ProgrammerState, e: Event)
    requires Consistent(s) && s.session == SESSION_PROGRAMMING && e.payload != []
      && e.payload[0] == SID_REQUEST_DOWNLOAD
    ensures KeepStep(s, e, RequestDownload(s, e.payload))
  {
  }

  lemma BlockKeeps(s: ProgrammerState, e: Event)
    requires Consistent(s) && s.session == SESSION_PROGRAMMING && e.payload != [] && e.payload[0] == SID_TRANSFER_DATA
    ensures KeepStep(s, e, TransferData(s, e.payload))
  {
  }

  lemma InSessionKeeps(cfg: Config, s: ProgrammerState, e: Event)
    requires Consistent(s) && s.session == SESSION_PROGRAMMING && e.payload != [] && IsProgrammingService(e.payload[0])
    ensures KeepStep(s, e, InSession(cfg, s, e.payload, e.now))
  {
    var sid := e.payload[0];
    if sid == SID_SECURITY_ACCESS {
      SecurityKeeps(cfg, s, e);
    } else if sid == SID_ROUTINE_CONTROL {
      RoutineKeeps(s, e);
    } else if sid == SID_REQUEST_DOWNLOAD {
      DownloadKeeps(s, e);
    } else if sid == SID_TRANSFER_DATA {
      BlockKeeps(s, e);
    }
  }

  // ----- the full chain

  predicate SessionAt(h: History, i: nat) { i < |h| && IsSession(h[i].event, h[i].outcome) }

  predicate KeyAt(h: History, i: nat) { i < |h| && IsKeyAccepted(h[i].event, h[i].outcome) }

  predicate EraseAt(h: History, i: nat) { i < |h| && IsErase(h[i].event, h[i].outcome) }

  predicate DownloadAt(h: History, i: nat) { i < |h| && IsDownload(h[i].event, h[i].outcome) }

  predicate ExitAt(h: History, i: nat) { i < |h| && IsExit(h[i].event, h[i].outcome) }

  predicate ActivationAt(h: History, i: nat) { i < |h| && IsActivation(h[i].event, h[i].outcome) }

  predicate ResetAt(h: History, i: nat) { i < |h| && IsReset(h[i].event, h[i].outcome) }

  /** The last session request before request `n`, or -1. */
  function LastSession(h: History, n: nat): int
    requires n <= |h|
    ensures -1 <= LastSession(h, n) < n
  {
    if n == 0 then -1 else if SessionAt(h, n - 1) then n - 1 else LastSession(h, n - 1)
  }

  ghost predicate HasKey(h: History, lo: int, n: nat) {
    exists k: nat :: lo < k < n && KeyAt(h, k)
  }

  ghost predicate HasErase(h: History, lo: int, n: nat) {
    exists e: nat :: lo < e < n && EraseAt(h, e) && HasKey(h, lo, e)
  }

  ghost predicate HasDownload(h: History, lo: int, n: nat) {
    exists d: nat :: lo < d < n && DownloadAt(h, d) && HasErase(h, lo, d)
  }

  /** Between `x` and `n` the receiver has not been emptied for another image. */
  ghost predicate Undisturbed(h: History, x: nat, n: nat) {
    forall j: nat | x < j < n :: !EraseAt(h, j) && !DownloadAt(h, j)
  }

  /** The transfer that ended at `x` passed, and its image is still in the buffer before request `n`. */
  ghost predicate PassedAt(cfg: Config, h: History, x: nat, n: nat)
    requires x < n <= |h|
  {
    && ExitAt(h, x) && Undisturbed(h, x, n)
    && StateAt(h, n).receiver == StateAt(h, x + 1).receiver && StateAt(h, n).receiver.Passes(cfg)
  }

  ghost predicate HasPassed(cfg: Config, h: History, lo: int, n: nat)
    requires n <= |h|
  {
    exists x: nat :: lo < x < n && PassedAt(cfg, h, x, n) && HasDownload(h, lo, x)
  }

  ghost predicate ActivatedAt(h: History, a: nat, n: nat) {
    ActivationAt(h, a) && forall j: nat | a < j < n :: !EraseAt(h, j)
  }

  ghost predicate HasActivation(h: History, lo: int, n: nat) {
    exists a: nat :: lo < a < n && ActivatedAt(h, a, n)
  }

  /** The flags stand for what has been seen on the bus since the last session request. */
  ghost predicate Justified(cfg: Config, h: History, n: nat)
    requires n <= |h|
  {
    var s, lo := StateAt(h, n), LastSession(h, n);
    && Consistent(s) && (s.session == SESSION_PROGRAMMING ==> lo >= 0)
    && (s.unlocked ==> HasKey(h, lo, n))
    && (s.eraseCompleted ==> HasErase(h, lo, n))
    && (s.downloadRequested ==> HasDownload(h, lo, n))
    && (s.installPending ==> HasPassed(cfg, h, lo, n))
    && (s.activationMarked ==> HasActivation(h, lo, n))
  }

  lemma HistoryGrows(h: History, lo: int, n: nat)
    ensures HasKey(h, lo, n) ==> HasKey(h, lo, n + 1)
    ensures HasErase(h, lo, n) ==> HasErase(h, lo, n + 1)
    ensures HasDownload(h, lo, n) ==> HasDownload(h, lo, n + 1)
  {
    if HasKey(h, lo, n) {
      var k: nat :| lo < k < n && KeyAt(h, k);
      assert lo < k < n + 1 && KeyAt(h, k);
    }
    if HasErase(h, lo, n) {
      var e: nat :| lo < e < n && EraseAt(h, e) && HasKey(h, lo, e);
      assert lo < e < n + 1 && EraseAt(h, e) && HasKey(h, lo, e);
    }
    if HasDownload(h, lo, n) {
      var d: nat :| lo < d < n && DownloadAt(h, d) && HasErase(h, lo, d);
      assert lo < d < n + 1 && DownloadAt(h, d) && HasErase(h, lo, d);
    }
  }

  lemma UndisturbedStays(h: History, x: nat, n: nat)
    requires Undisturbed(h, x, n) && !EraseAt(h, n) && !DownloadAt(h, n)
    ensures Undisturbed(h, x, n + 1)
  {
  }

  lemma PassedStays(cfg: Config, h: History, lo: int, n: nat)
    requires n < |h| && HasPassed(cfg, h, lo, n)
    requires !EraseAt(h, n) && !DownloadAt(h, n)
    requires StateAt(h, n + 1).receiver == StateAt(h, n).receiver
    ensures HasPassed(cfg, h, lo, n + 1)
  {
    var x: nat :| lo < x < n && PassedAt(cfg, h, x, n) && HasDownload(h, lo, x);
    UndisturbedStays(h, x, n);
    PassedAtStays(cfg, h, x, n, StateAt(h, n).receiver, StateAt(h, n + 1).receiver);
  }

  lemma PassedAtStays(cfg: Config, h: History, x: nat, n: nat, r: Receiver, next: Receiver)
    requires x < n < |h| && PassedAt(cfg, h, x, n) && Undisturbed(h, x, n + 1)
    requires r == StateAt(h, n).receiver && next == StateAt(h, n + 1).receiver && r == next
    ensures PassedAt(cfg, h, x, n + 1)
  {
  }

  lemma ActivationStays(h: History, lo: int, n: nat)
    requires HasActivation(h, lo, n) && !EraseAt(h, n)
    ensures HasActivation(h, lo, n + 1)
  {
    var a: nat :| lo < a < n && ActivatedAt(h, a, n);
    assert ActivatedAt(h, a, n + 1);
  }

  lemma StepIsJustified(cfg: Config, h: History, n: nat)
    requires IsRun(cfg, h) && n < |h| && Justified(cfg, h, n)
    ensures Justified(cfg, h, n + 1)
  {
    var s, e, o, lo := StateAt(h, n), h[n].event, h[n].outcome, LastSession(h, n);
    var t := o.state;
    assert Recorded(cfg, h, n) && StateAt(h, n + 1) == t;
    StepStaysConsistent(cfg, s, e);
    FlagsComeFromRequests(cfg, s, e);
    if !SessionAt(h, n) {
      assert LastSession(h, n + 1) == lo;
      HistoryGrows(h, lo, n);
      if t.unlocked && !s.unlocked { assert KeyAt(h, n); }
      if t.eraseCompleted && !s.eraseCompleted { assert EraseAt(h, n); }
      if t.downloadRequested && !s.downloadRequested { assert DownloadAt(h, n); }
      if t.installPending {
        if IsExit(e, o) { assert PassedAt(cfg, h, n, n + 1); } else { PassedStays(cfg, h, lo, n); }
      }
      if t.activationMarked {
        if IsActivation(e, o) { assert ActivatedAt(h, n, n + 1); } else { ActivationStays(h, lo, n); }
      }
    }
  }

  lemma {:induction false} AlwaysJustified(cfg: Config, h: History, n: nat)
    requires IsRun(cfg, h) && n <= |h|
    ensures Justified(cfg, h, n)
  {
    if n > 0 {
      AlwaysJustified(cfg, h, n - 1);
      StepIsJustified(cfg, h, n - 1);
    }
  }

  // ----- session refreshes

  /** Request `i` is handled with diagnostics on, and programming on if it needs it. */
  predicate Enabled(e: Event) {
    && e.payload != [] && e.control.diagnosticsEnabled
    && (IsProgrammingService(e.payload[0]) ==> e.control.programmingEnabled)
  }

  /** A request that (re)starts the session clock: a session request, or anything served inside a live session. */
  predicate Refreshes(s: ProgrammerState, e: Event) {
    && Enabled(e)
    && (e.payload[0] == SID_SESSION_CONTROL
        || ((e.payload[0] == SID_TESTER_PRESENT || IsProgrammingService(e.payload[0]))
            && Expire(s, e.now).session == SESSION_PROGRAMMING))
  }

  predicate RefreshAt(h: History, i: nat) {
    i < |h| && Refreshes(StateAt(h, i), h[i].event)
  }

  /** When the session clock was last restarted before request `n`; 0 if never. */
  function LastRefresh(h: History, n: nat): real
    requires n <= |h|
  {
    if n == 0 then 0.0 else if RefreshAt(h, n - 1) then h[n - 1].event.now else LastRefresh(h, n - 1)
  }

  lemma InSessionKeepsClock(cfg: Config, s: ProgrammerState, p: Bytes, now: real)
    requires p != [] && IsProgrammingService(p[0])
    ensures InSession(cfg, s, p, now).state.sessionStartedAt == s.sessionStartedAt
  {
    if p[0] == SID_SECURITY_ACCESS {
      assert SecurityAccess(cfg, s, p, now).state.sessionStartedAt == s.sessionStartedAt;
    } else if p[0] == SID_ROUTINE_CONTROL {
      assert RoutineControl(s, p).state.sessionStartedAt == s.sessionStartedAt;
    } else if p[0] == SID_REQUEST_DOWNLOAD {
      assert RequestDownload(s, p).state.sessionStartedAt == s.sessionStartedAt;
    } else if p[0] == SID_TRANSFER_DATA {
      assert TransferData(s, p).state.sessionStartedAt == s.sessionStartedAt;
    } else if p[0] == SID_TRANSFER_EXIT {
      assert TransferExit(cfg, s).state.sessionStartedAt == s.sessionStartedAt;
    }
  }

  lemma StepRefreshes(cfg: Config, s: ProgrammerState, e: Event)
    ensures Do(cfg, s, e).state.sessionStartedAt == if Refreshes(s, e) then e.now else s.sessionStartedAt
  {
    if e.payload != [] && IsProgrammingService(e.payload[0]) {
      InSessionKeepsClock(cfg, Expire(s, e.now).(sessionStartedAt := e.now), e.payload, e.now);
    }
  }

  lemma {:induction false} SessionClock(cfg: Config, h: History, n: nat)
    requires IsRun(cfg, h) && n <= |h|
    ensures StateAt(h, n).sessionStartedAt == LastRefresh(h, n)
  {
    if n > 0 {
      SessionClock(cfg, h, n - 1);
      assert Recorded(cfg, h, n - 1);
      StepRefreshes(cfg, StateAt(h, n - 1), h[n - 1].event);
    }
  }

  /** A request that restarts the clock of a session that is still live, and opens none itself. */
  predicate Keeps(e: Event) {
    Enabled(e) && (e.payload[0] == SID_TESTER_PRESENT || IsProgrammingService(e.payload[0]))
  }

  /**
   Inside a session a request refreshes it exactly if it comes no more than 120 seconds after the last refresh, or if
   that was at time zero exactly: a session clock that reads zero counts as never started, and does not expire.
   */
  lemma RefreshesAreClose(cfg: Config, h: History, i: nat)
    requires IsRun(cfg, h) && i < |h| && Keeps(h[i].event) && StateAt(h, i).session == SESSION_PROGRAMMING
    ensures RefreshAt(h, i) <==> LastRefresh(h, i) == 0.0 || h[i].event.now - LastRefresh(h, i) <= SESSION_TIMEOUT
  {
    SessionClock(cfg, h, i);
  }

  /** Every refresh but a session request meets that condition. */
  lemma RefreshIsInTime(cfg: Config, h: History, i: nat)
    requires IsRun(cfg, h) && RefreshAt(h, i) && !SessionAt(h, i)
    ensures LastRefresh(h, i) == 0.0 || h[i].event.now - LastRefresh(h, i) <= SESSION_TIMEOUT
  {
    assert Recorded(cfg, h, i);
    if h[i].event.payload[0] == SID_SESSION_CONTROL {
      SessionIsAnswered(cfg, StateAt(h, i), h[i].event);
    }
    RefreshesAreClose(cfg, h, i);
  }

  /** A session opened at time zero that still serves a request at any later time. */
  lemma ZeroClockNeverExpires(cfg: Config, later: real) returns (h: History)
    requires later > SESSION_TIMEOUT
    ensures IsRun(cfg, h) && Timed(h) && |h| == 2 && SessionAt(h, 0) && LastRefresh(h, 1) == 0.0
      && h[1].event.now == later
    ensures RefreshAt(h, 1) && Answered(h[1].event, h[1].outcome, SID_SECURITY_ACCESS)
  {
    var on := Control(true, true);
    var es := [Event(0.0, on, [SID_SESSION_CONTROL, SESSION_PROGRAMMING]),
               Event(later, on, [SID_SECURITY_ACCESS, REQUEST_SEED])];
    h := RunOf(cfg, es);
    assert h[0].event == es[0] && h[1].event == es[1];
    assert Recorded(cfg, h, 0) && Recorded(cfg, h, 1);
    assert LastRefresh(h, 0) == 0.0;
  }

  lemma SessionIsAnswered(cfg: Config, s: ProgrammerState, e: Event)
    requires Enabled(e) && e.payload[0] == SID_SESSION_CONTROL
    ensures IsSession(e, Do(cfg, s, e))
  {
  }

  // ----- installation

  ghost predicate HasExit(h: History, lo: int, n: nat) {
    exists x: nat :: lo < x < n && ExitAt(h, x) && Undisturbed(h, x, n)
  }

  /** What the bus must have shown since the last session request before an ECU reset starts an installation. */
  ghost predicate ReadyToInstall(h: History, i: nat)
    requires i <= |h|
  {
    var lo := LastSession(h, i);
    && HasExit(h, lo, i)
    && HasActivation(h, lo, i)
  }

  /** The flags are up whenever the bus has shown it. */
  lemma {:induction false} ReadinessIsRemembered(cfg: Config, h: History, n: nat)
    requires IsRun(cfg, h) && n <= |h|
    ensures var s, lo := StateAt(h, n), LastSession(h, n);
      s.session == SESSION_PROGRAMMING ==>
        && (HasExit(h, lo, n) ==> s.installPending)
        && (HasActivation(h, lo, n) ==> s.activationMarked)
  {
    if n > 0 {
      AlwaysConsistent(cfg, h, n - 1);
      ReadinessIsRemembered(cfg, h, n - 1);
      assert Recorded(cfg, h, n - 1);
      RememberStep(cfg, h, n - 1, StateAt(h, n - 1), h[n - 1].outcome);
    }
  }

  lemma RememberStep(cfg: Config, h: History, m: nat, s: ProgrammerState, o: Outcome)
    requires m < |h| && s == StateAt(h, m) && o == h[m].outcome == Do(cfg, s, h[m].event) && Consistent(s)
    requires var lo := LastSession(h, m);
      s.session == SESSION_PROGRAMMING ==>
        && (HasExit(h, lo, m) ==> s.installPending)
        && (HasActivation(h, lo, m) ==> s.activationMarked)
    ensures var t, lo := o.state, LastSession(h, m + 1);
      t.session == SESSION_PROGRAMMING ==>
        && (HasExit(h, lo, m + 1) ==> t.installPending)
        && (HasActivation(h, lo, m + 1) ==> t.activationMarked)
  {
    var t, lo := o.state, LastSession(h, m + 1);
    FlagsAreKept(cfg, s, h[m].event);
    if t.session == SESSION_PROGRAMMING && !SessionAt(h, m) {
      if HasExit(h, lo, m + 1) {
        var x: nat :| lo < x < m + 1 && ExitAt(h, x) && Undisturbed(h, x, m + 1);
        if x < m {
          assert !EraseAt(h, m) && !DownloadAt(h, m);
          assert Undisturbed(h, x, m);
        }
      }
      if HasActivation(h, lo, m + 1) {
        var a: nat :| lo < a < m + 1 && ActivatedAt(h, a, m + 1);
        if a < m {
          assert !EraseAt(h, m);
          assert ActivatedAt(h, a, m);
        }
      }
    }
  }

  lemma ResetInstalls(cfg: Config, s: ProgrammerState, e: Event)
    requires Consistent(s)
    ensures Do(cfg, s, e).installs <==> IsReset(e, Do(cfg, s, e)) && s.installPending && s.activationMarked
    ensures IsReset(e, Do(cfg, s, e)) ==> s.session == SESSION_PROGRAMMING
    ensures Do(cfg, s, e).installs ==> Enabled(e) && !Expired(s, e.now)
  {
  }

  /**
   An installation is started exactly by an accepted ECU reset that finds, since the last session request, a
   passed transfer exit with no erase or download request after it and an activation with no erase after it.
   */
  lemma InstallExactlyWhenReady(cfg: Config, h: History, i: nat)
    requires IsRun(cfg, h) && i < |h|
    ensures h[i].outcome.installs <==> ResetAt(h, i) && ReadyToInstall(h, i)
  {
    var s, lo := StateAt(h, i), LastSession(h, i);
    AlwaysJustified(cfg, h, i);
    ReadinessIsRemembered(cfg, h, i);
    assert Recorded(cfg, h, i);
    ResetInstalls(cfg, s, h[i].event);
    if h[i].outcome.installs {
      var x: nat :| lo < x < i && PassedAt(cfg, h, x, i) && HasDownload(h, lo, x);
      assert ExitAt(h, x) && Undisturbed(h, x, i);
    }
  }

  /**
   No installation without the full chain: since the last session request, in this order, an accepted key, an
   erase, an accepted download request and a transfer exit that passed, whose image is still in the buffer and
   has the reference digest; and an accepted activation with no erase after it. No two refreshes of the session
   in a row were more than 120 seconds apart, up to the reset itself.
   */
  lemma InstallNeedsFullChain(cfg: Config, h: History, i: nat) returns (s: nat, k: nat, e: nat, d: nat, x: nat, a: nat)
    requires IsRun(cfg, h) && i < |h| && h[i].outcome.installs
    ensures s == LastSession(h, i) && s < k < e < d < x < i && s < a < i
    ensures KeyAt(h, k) && EraseAt(h, e) && DownloadAt(h, d)
    ensures PassedAt(cfg, h, x, i) && ActivatedAt(h, a, i)
    ensures RefreshAt(h, i)
    ensures forall j: nat | s < j <= i && RefreshAt(h, j) ::
      LastRefresh(h, j) == 0.0 || h[j].event.now - LastRefresh(h, j) <= SESSION_TIMEOUT
  {
    AlwaysJustified(cfg, h, i);
    assert Recorded(cfg, h, i);
    ResetInstalls(cfg, StateAt(h, i), h[i].event);
    s := LastSession(h, i);
    k, e, d, x, a := ChainWitnesses(cfg, h, s, i);
    forall j: nat | s < j <= i && RefreshAt(h, j)
      ensures LastRefresh(h, j) == 0.0 || h[j].event.now - LastRefresh(h, j) <= SESSION_TIMEOUT
    {
      if j < i { NoSessionAfterLast(h, i, j); }
      RefreshIsInTime(cfg, h, j);
    }
  }

  lemma ChainWitnesses(cfg: Config, h: History, lo: int, i: nat) returns (k: nat, e: nat, d: nat, x: nat, a: nat)
    requires i < |h| && HasPassed(cfg, h, lo, i) && HasActivation(h, lo, i)
    ensures lo < k < e < d < x < i && lo < a < i
    ensures KeyAt(h, k) && EraseAt(h, e) && DownloadAt(h, d)
    ensures PassedAt(cfg, h, x, i) && ActivatedAt(h, a, i)
  {
    x :| lo < x < i && PassedAt(cfg, h, x, i) && HasDownload(h, lo, x);
    d :| lo < d < x && DownloadAt(h, d) && HasErase(h, lo, d);
    e :| lo < e < d && EraseAt(h, e) && HasKey(h, lo, e);
    k :| lo < k < e && KeyAt(h, k);
    a :| lo < a < i && ActivatedAt(h, a, i);
  }

  lemma {:induction false} NoSessionAfterLast(h: History, n: nat, j: nat)
    requires n <= |h| && LastSession(h, n) < j < n
    ensures !SessionAt(h, j)
  {
    if j < n - 1 { NoSessionAfterLast(h, n - 1, j); }
  }
}
