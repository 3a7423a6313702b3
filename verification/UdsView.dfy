/**
 A `UDSCanProgrammer` (ecus/base/uds_can_programmer.py) as it looks from the bus: what the requests and their final
 answers so far say about the ECU, and that this decides every further answer.
 */
module UdsView {
  import opened Base
  import opened UdsCodec
  import opened UdsProgrammer
  import opened UdsSafety
  import opened UdsLockout

  /** Whether the ECU is unlocked, and otherwise the seed that it waits to be answered. */
  datatype Access = Shut | Offered(seed: Bytes) | Open

  /** `size`, `data` and `blocks` are about the transfer since the last download or erase request. */
  datatype View = View(live: bool, refreshed: real, access: Access, erased: bool, loading: bool, size: nat,
                       data: Bytes, blocks: nat, passed: bool, activated: bool)

  const NO_SESSION := View(false, 0.0, Shut, false, false, 0, [], 0, false, false)

  function FinalAnswer(o: Outcome): Bytes {
    if o.responses == [] then [] else o.responses[|o.responses| - 1]
  }

  predicate IsSeed(e: Event, o: Outcome) {
    Answered(e, o, SID_SECURITY_ACCESS) && |e.payload| >= 2 && e.payload[1] == REQUEST_SEED
  }

  predicate IsBlock(e: Event, o: Outcome) {
    Answered(e, o, SID_TRANSFER_DATA) && |e.payload| >= 2
  }

  function Take(data: Bytes, n: int): Bytes {
    if n <= 0 then [] else if |data| <= n then data else data[..n]
  }

  /** A request inside a session, more than 120 seconds after the last; a clock that reads zero never expires. */
  predicate Late(v: View, e: Event) {
    v.refreshed != 0.0 && e.now - v.refreshed > 120.0
  }

  /** What a request served inside a session, and its answer, add to the view. */
  function Served(v: View, e: Event, o: Outcome): View {
    if IsReset(e, o) then NO_SESSION
    else if IsSeed(e, o) then v.(access := Offered(if |FinalAnswer(o)| >= 2 then FinalAnswer(o)[2..] else []))
    else if IsKeyAccepted(e, o) then v.(access := Open)
    else if IsKeyRejected(e, o) then v.(access := Shut)
    else if IsErase(e, o) then
      v.(erased := true, size := if |e.payload| >= 8 then FromBigEndian(e.payload[4..8]) else 0, data := [],
         blocks := 0, passed := false, activated := false)
    else if IsDownload(e, o) then
      v.(loading := true, size := if |e.payload| >= 4 then FromBigEndian(e.payload[|e.payload| - 4..]) else 0,
         data := [], blocks := 0, passed := false)
    else if IsBlock(e, o) then
      v.(data := v.data + Take(e.payload[2..], v.size - |v.data|), blocks := v.blocks + 1)
    else if IsExit(e, o) then v.(loading := false, passed := true)
    else if IsActivation(e, o) then v.(activated := true)
    else v
  }

  function Note(v: View, e: Event, o: Outcome): View {
    if IsSession(e, o) then
      NO_SESSION.(live := |e.payload| > 1 && e.payload[1] == SESSION_PROGRAMMING, refreshed := e.now)
    else if !v.live || !Keeps(e) then v
    else if Late(v, e) then NO_SESSION
    else Served(v.(refreshed := e.now), e, o)
  }

  /** What the bus has shown before request `n`. */
  function Seen(h: History, n: nat): View
    requires n <= |h|
  {
    if n == 0 then NO_SESSION else Note(Seen(h, n - 1), h[n - 1].event, h[n - 1].outcome)
  }

  // ----- the view is exact

  predicate TransferSeen(s: ProgrammerState, v: View) {
    && s.expectedSize == v.size && s.receiver.buffer == v.data && s.receivedSize == |v.data|
    && s.sequence == (1 + v.blocks) % 256
  }

  /** The flags of an open session, as seen. */
  predicate FlagsSeen(s: ProgrammerState, v: View) {
    && s.unlocked == v.access.Open? && s.pendingSeed == (if v.access.Offered? then v.access.seed else [])
    && s.eraseCompleted == v.erased && s.downloadRequested == v.loading && s.installPending == v.passed
    && s.activationMarked == v.activated && (v.access.Offered? ==> v.access.seed != [])
  }

  predicate Represents(s: ProgrammerState, v: View) {
    && (s.session == SESSION_PROGRAMMING <==> v.live)
    && (v.live ==> s.sessionStartedAt == v.refreshed && FlagsSeen(s, v) && (v.loading ==> TransferSeen(s, v)))
  }

  /** A seed is withheld for 30 seconds after the third rejection in a row, and after each one more. */
  predicate SeedsHeld(rejections: seq<real>, now: real) {
    |rejections| >= 3 && now < rejections[|rejections| - 1] + 30.0
  }

  predicate Counts(s: ProgrammerState, rejections: seq<real>, now: real) {
    s.failures == |rejections| && (now < s.lockedUntil <==> SeedsHeld(rejections, now))
  }

  /** The requests that an open session answers positively, by what the bus has shown. */
  predicate Deserves(cfg: Config, v: View, rejections: seq<real>, e: Event)
    requires e.payload != []
  {
    var p := e.payload;
    if p[0] == SID_SECURITY_ACCESS then
      |p| >= 2 && if p[1] == REQUEST_SEED then !SeedsHeld(rejections, e.now)
                  else p[1] == SEND_KEY && v.access.Offered? && p[2..] == cfg.deriveKey(v.access.seed)
    else if p[0] == SID_ROUTINE_CONTROL then
      |p| >= 4 && p[1] == ROUTINE_START && v.access.Open?
      && (FromBigEndian(p[2..4]) == ROUTINE_ERASE
          || (FromBigEndian(p[2..4]) in {ROUTINE_VERIFY, ROUTINE_ACTIVATE} && v.passed))
    else if p[0] == SID_REQUEST_DOWNLOAD then
      |p| >= 11 && p[1] == 0x00 && p[2] == 0x44 && v.access.Open? && v.erased
    else if p[0] == SID_TRANSFER_DATA then
      |p| >= 2 && v.access.Open? && v.loading && p[1] == (1 + v.blocks) % 256
      && (v.size == 0 || (|p| > 2 && |v.data| < v.size))
    else if p[0] == SID_TRANSFER_EXIT then
      v.access.Open? && v.loading && (v.size == 0 || |v.data| == v.size)
      && cfg.digest(cfg.original) == cfg.digest(v.data)
    else p[0] == SID_ECU_RESET
  }

  /** What a refusal with this code says about a request to an open session. */
  predicate Reason(cfg: Config, v: View, rejections: seq<real>, e: Event, code: byte)
    requires e.payload != []
  {
    var p, sid := e.payload, e.payload[0];
    var sub := if |p| >= 2 then p[1] else 0;
    var routine := if |p| >= 4 then FromBigEndian(p[2..4]) else 0;
    if code == NRC_INCORRECT_LENGTH then
      || (sid in {SID_SECURITY_ACCESS, SID_TRANSFER_DATA} && |p| < 2) || (sid == SID_ROUTINE_CONTROL && |p| < 4)
      || (sid == SID_REQUEST_DOWNLOAD && |p| < 11)
      || (sid == SID_TRANSFER_EXIT && v.loading && v.size != 0 && |v.data| < v.size)
    else if code == NRC_SECURITY_ACCESS_DENIED then
      sid in {SID_ROUTINE_CONTROL, SID_TRANSFER_DATA, SID_TRANSFER_EXIT} && !v.access.Open?
    else if code == NRC_REQUEST_SEQUENCE_ERROR then
      || (sid == SID_SECURITY_ACCESS && sub == SEND_KEY && !v.access.Offered?)
      || (sid in {SID_TRANSFER_DATA, SID_TRANSFER_EXIT} && !v.loading)
    else if code == NRC_CONDITIONS_NOT_CORRECT then sid == SID_REQUEST_DOWNLOAD && (!v.access.Open? || !v.erased)
    else if code == NRC_DELAY_NOT_EXPIRED then
      sid == SID_SECURITY_ACCESS && sub == REQUEST_SEED && SeedsHeld(rejections, e.now)
    else if code in {NRC_INVALID_KEY, NRC_EXCEED_ATTEMPTS} then
      && sid == SID_SECURITY_ACCESS && |p| >= 2 && sub == SEND_KEY && v.access.Offered?
      && p[2..] != cfg.deriveKey(v.access.seed) && (code == NRC_EXCEED_ATTEMPTS <==> |rejections| >= 2)
    else if code == NRC_SUBFUNCTION_NOT_SUPPORTED then
      || (sid == SID_SECURITY_ACCESS && sub !in {REQUEST_SEED, SEND_KEY})
      || (sid == SID_ROUTINE_CONTROL && sub != ROUTINE_START)
    else if code == NRC_PROGRAMMING_FAILURE then
      || (sid == SID_ROUTINE_CONTROL && routine in {ROUTINE_VERIFY, ROUTINE_ACTIVATE} && !v.passed)
      || (sid == SID_TRANSFER_EXIT && v.loading && cfg.digest(cfg.original) != cfg.digest(v.data))
    else if code == NRC_WRONG_SEQUENCE then sid == SID_TRANSFER_DATA && sub != (1 + v.blocks) % 256
    else if code == NRC_REQUEST_OUT_OF_RANGE then
      || (sid == SID_ROUTINE_CONTROL && routine !in {ROUTINE_ERASE, ROUTINE_VERIFY, ROUTINE_ACTIVATE})
      || (sid == SID_REQUEST_DOWNLOAD && |p| >= 3 && (p[1] != 0x00 || p[2] != 0x44))
      || (sid == SID_TRANSFER_DATA && v.size != 0 && (|p| == 2 || |v.data| == v.size))
    else false
  }

  /** A routine that is started, and a verification, take their time: "response pending" comes first. */
  predicate Slow(cfg: Config, v: View, rejections: seq<real>, e: Event)
    requires e.payload != []
  {
    || (e.payload[0] == SID_ROUTINE_CONTROL && Deserves(cfg, v, rejections, e))
    || (e.payload[0] == SID_TRANSFER_EXIT && v.access.Open? && v.loading && (v.size == 0 || |v.data| == v.size))
  }

  /** What a positive answer says: mostly it repeats the request. The seed comes behind it. */
  function Echo(e: Event): Bytes
    requires e.payload != []
  {
    var p := e.payload;
    if p[0] == SID_ROUTINE_CONTROL && |p| >= 4 then [0x71] + p[1..4]
    else if p[0] == SID_REQUEST_DOWNLOAD then [0x74, 0x00, 0x44, 0x00, 0x40]
    else if p[0] == SID_TRANSFER_EXIT then [0x77]
    else if p[0] == SID_ECU_RESET then [0x51, if |p| > 1 then p[1] else 0x01]
    else [PositiveSid(p[0])] + if |p| > 1 then [p[1]] else []
  }

  /** The final answer to a request in an open session: positive if deserved, and otherwise a refusal that is true. */
  predicate AnsweredRight(cfg: Config, v: View, rejections: seq<real>, e: Event, o: Outcome)
    requires e.payload != []
  {
    var final := FinalAnswer(o);
    && o.responses == (if Slow(cfg, v, rejections, e) then [ResponsePending(e.payload[0]), final] else [final])
    && if Deserves(cfg, v, rejections, e) then
         && Answered(e, o, e.payload[0]) && Echo(e) <= final
         && (final == Echo(e) || (e.payload[0] == SID_SECURITY_ACCESS && e.payload[1] == REQUEST_SEED))
       else |final| == 3 && final == Negative(e.payload[0], final[2]) && Reason(cfg, v, rejections, e, final[2])
  }

  /** Everything about one request served in an open session. */
  predicate RightStep(cfg: Config, v: View, rejections: seq<real>, e: Event, o: Outcome)
    requires e.payload != []
  {
    AnsweredRight(cfg, v, rejections, e, o) && Represents(o.state, Served(v, e, o))
  }

  /** A state in an open session, as it is when a request is served. */
  ghost predicate AsSeen(s: ProgrammerState, v: View, rejections: seq<real>, now: real) {
    Consistent(s) && v.live && Represents(s, v) && Counts(s, rejections, now)
  }

  // ----- one service at a time

  lemma SeedRight(cfg: Config, s: ProgrammerState, v: View, rejections: seq<real>, e: Event)
    requires AsSeen(s, v, rejections, e.now)
    requires |e.payload| >= 2 && e.payload[0] == SID_SECURITY_ACCESS && e.payload[1] == REQUEST_SEED
    ensures RightStep(cfg, v, rejections, e, SecurityAccess(cfg, s, e.payload, e.now))
  {
  }

  lemma KeyAnswered(cfg: Config, s: ProgrammerState, v: View, rejections: seq<real>, e: Event)
    requires AsSeen(s, v, rejections, e.now)
    requires |e.payload| >= 2 && e.payload[0] == SID_SECURITY_ACCESS && e.payload[1] == SEND_KEY
    ensures AnsweredRight(cfg, v, rejections, e, SecurityAccess(cfg, s, e.payload, e.now))
  {
  }

  lemma KeySeen(cfg: Config, s: ProgrammerState, v: View, rejections: seq<real>, e: Event)
    requires AsSeen(s, v, rejections, e.now)
    requires |e.payload| >= 2 && e.payload[0] == SID_SECURITY_ACCESS && e.payload[1] == SEND_KEY
    ensures var o := SendKey(cfg, s, e.payload[2..], e.now); Represents(o.state, Served(v, e, o))
  {
    var o := SendKey(cfg, s, e.payload[2..], e.now);
    if s.pendingSeed == [] {
      assert !IsKeyAccepted(e, o) && !IsKeyRejected(e, o);
    } else if e.payload[2..] == cfg.deriveKey(s.pendingSeed) {
      assert IsKeyAccepted(e, o);
    } else {
      assert IsKeyRejected(e, o);
    }
  }

  lemma KeyRight(cfg: Config, s: ProgrammerState, v: View, rejections: seq<real>, e: Event)
    requires AsSeen(s, v, rejections, e.now)
    requires |e.payload| >= 2 && e.payload[0] == SID_SECURITY_ACCESS && e.payload[1] == SEND_KEY
    ensures RightStep(cfg, v, rejections, e, SecurityAccess(cfg, s, e.payload, e.now))
  {
    KeyAnswered(cfg, s, v, rejections, e);
    KeySeen(cfg, s, v, rejections, e);
  }

  lemma RoutineAnswered(cfg: Config, s: ProgrammerState, v: View, rejections: seq<real>, e: Event)
    requires AsSeen(s, v, rejections, e.now) && e.payload != [] && e.payload[0] == SID_ROUTINE_CONTROL
    ensures AnsweredRight(cfg, v, rejections, e, RoutineControl(s, e.payload))
  {
    if |e.payload| >= 8 {
      assert e.payload[4..][..4] == e.payload[4..8];
    }
  }

  lemma RoutineSeen(cfg: Config, s: ProgrammerState, v: View, rejections: seq<real>, e: Event)
    requires AsSeen(s, v, rejections, e.now) && e.payload != [] && e.payload[0] == SID_ROUTINE_CONTROL
    ensures var o := RoutineControl(s, e.payload); Represents(o.state, Served(v, e, o))
  {
    if |e.payload| >= 8 {
      assert e.payload[4..][..4] == e.payload[4..8];
    }
  }

  lemma RoutineRight(cfg: Config, s: ProgrammerState, v: View, rejections: seq<real>, e: Event)
    requires AsSeen(s, v, rejections, e.now) && e.payload != [] && e.payload[0] == SID_ROUTINE_CONTROL
    ensures RightStep(cfg, v, rejections, e, RoutineControl(s, e.payload))
  {
    RoutineAnswered(cfg, s, v, rejections, e);
    RoutineSeen(cfg, s, v, rejections, e);
  }

  lemma DownloadRight(cfg: Config, s: ProgrammerState, v: View, rejections: seq<real>, e: Event)
    requires AsSeen(s, v, rejections, e.now) && e.payload != [] && e.payload[0] == SID_REQUEST_DOWNLOAD
    ensures RightStep(cfg, v, rejections, e, RequestDownload(s, e.payload))
  {
  }

  lemma BlockAnswered(cfg: Config, s: ProgrammerState, v: View, rejections: seq<real>, e: Event)
    requires AsSeen(s, v, rejections, e.now) && e.payload != [] && e.payload[0] == SID_TRANSFER_DATA
    ensures AnsweredRight(cfg, v, rejections, e, TransferData(s, e.payload))
  {
  }

  lemma BlockSeen(cfg: Config, s: ProgrammerState, v: View, rejections: seq<real>, e: Event)
    requires AsSeen(s, v, rejections, e.now) && e.payload != [] && e.payload[0] == SID_TRANSFER_DATA
    ensures var o := TransferData(s, e.payload); Represents(o.state, Served(v, e, o))
  {
  }

  lemma BlockRight(cfg: Config, s: ProgrammerState, v: View, rejections: seq<real>, e: Event)
    requires AsSeen(s, v, rejections, e.now) && e.payload != [] && e.payload[0] == SID_TRANSFER_DATA
    ensures RightStep(cfg, v, rejections, e, TransferData(s, e.payload))
  {
    BlockAnswered(cfg, s, v, rejections, e);
    BlockSeen(cfg, s, v, rejections, e);
  }

  lemma ExitRight(cfg: Config, s: ProgrammerState, v: View, rejections: seq<real>, e: Event)
    requires AsSeen(s, v, rejections, e.now) && e.payload != [] && e.payload[0] == SID_TRANSFER_EXIT
    ensures RightStep(cfg, v, rejections, e, TransferExit(cfg, s))
  {
  }

  lemma ResetRight(cfg: Config, s: ProgrammerState, v: View, rejections: seq<real>, e: Event)
    requires AsSeen(s, v, rejections, e.now) && e.payload != [] && e.payload[0] == SID_ECU_RESET
    ensures RightStep(cfg, v, rejections, e, EcuReset(s, e.payload))
  {
  }

  lemma SecurityRight(cfg: Config, s: ProgrammerState, v: View, rejections: seq<real>, e: Event)
    requires AsSeen(s, v, rejections, e.now) && e.payload != [] && e.payload[0] == SID_SECURITY_ACCESS
    ensures RightStep(cfg, v, rejections, e, SecurityAccess(cfg, s, e.payload, e.now))
  {
    if |e.payload| >= 2 && e.payload[1] == REQUEST_SEED {
      SeedRight(cfg, s, v, rejections, e);
    } else if |e.payload| >= 2 && e.payload[1] == SEND_KEY {
      KeyRight(cfg, s, v, rejections, e);
    }
  }

  lemma InSessionRight(cfg: Config, s: ProgrammerState, v: View, rejections: seq<real>, e: Event)
    requires AsSeen(s, v, rejections, e.now) && e.payload != [] && IsProgrammingService(e.payload[0])
    ensures RightStep(cfg, v, rejections, e, InSession(cfg, s, e.payload, e.now))
  {
    var sid := e.payload[0];
    if sid == SID_SECURITY_ACCESS {
      SecurityRight(cfg, s, v, rejections, e);
    } else if sid == SID_ROUTINE_CONTROL {
      RoutineRight(cfg, s, v, rejections, e);
    } else if sid == SID_REQUEST_DOWNLOAD {
      DownloadRight(cfg, s, v, rejections, e);
    } else if sid == SID_TRANSFER_DATA {
      BlockRight(cfg, s, v, rejections, e);
    } else if sid == SID_TRANSFER_EXIT {
      ExitRight(cfg, s, v, rejections, e);
    } else {
      ResetRight(cfg, s, v, rejections, e);
    }
  }

  // ----- every request

  /** The whole answer to a request for a service that needs a programming session. */
  predicate ServiceRight(cfg: Config, v: View, rejections: seq<real>, e: Event, o: Outcome)
    requires e.payload != []
  {
    if !e.control.diagnosticsEnabled || !e.control.programmingEnabled
    then o.responses == [Negative(e.payload[0], NRC_CONDITIONS_NOT_CORRECT)]
    else if !v.live || Late(v, e) then o.responses == [Negative(e.payload[0], NRC_NOT_IN_SESSION)]
    else AnsweredRight(cfg, v.(refreshed := e.now), rejections, e, o)
  }

  lemma ServiceStep(cfg: Config, s: ProgrammerState, v: View, rejections: seq<real>, e: Event)
    requires Consistent(s) && Represents(s, v) && Counts(s, rejections, e.now)
    requires e.payload != [] && IsProgrammingService(e.payload[0])
    ensures var o := Do(cfg, s, e);
      ServiceRight(cfg, v, rejections, e, o) && Represents(o.state, Note(v, e, o))
  {
    if Enabled(e) && v.live && !Late(v, e) {
      var t, w := s.(sessionStartedAt := e.now), v.(refreshed := e.now);
      InSessionRight(cfg, t, w, rejections, e);
      assert Do(cfg, s, e) == InSession(cfg, t, e.payload, e.now);
    } else {
      TurnedAway(cfg, s, v, e);
    }
  }

  lemma TurnedAway(cfg: Config, s: ProgrammerState, v: View, e: Event)
    requires Consistent(s) && Represents(s, v) && e.payload != [] && IsProgrammingService(e.payload[0])
    requires !Enabled(e) || !v.live || Late(v, e)
    ensures var o := Do(cfg, s, e);
      && o.responses == [Negative(e.payload[0], if Enabled(e) then NRC_NOT_IN_SESSION else NRC_CONDITIONS_NOT_CORRECT)]
      && Represents(o.state, Note(v, e, o))
  {
  }

  lemma SessionStep(cfg: Config, s: ProgrammerState, v: View, e: Event)
    requires Consistent(s) && Represents(s, v) && Enabled(e) && e.payload[0] == SID_SESSION_CONTROL
    ensures var o := Do(cfg, s, e); Represents(o.state, Note(v, e, o))
  {
    assert IsSession(e, Do(cfg, s, e));
  }

  lemma PresenceStep(cfg: Config, s: ProgrammerState, v: View, e: Event)
    requires Consistent(s) && Represents(s, v) && Enabled(e) && e.payload[0] == SID_TESTER_PRESENT
    ensures var o := Do(cfg, s, e); Represents(o.state, Note(v, e, o))
  {
  }

  /** Nothing changes, and nothing is seen. */
  lemma IdleStep(cfg: Config, s: ProgrammerState, v: View, e: Event)
    requires Represents(s, v) && (e.payload == [] || !IsProgrammingService(e.payload[0]))
    requires !Enabled(e) || e.payload[0] !in {SID_SESSION_CONTROL, SID_TESTER_PRESENT}
    ensures var o := Do(cfg, s, e); o.state == s && Note(v, e, o) == v
  {
  }

  lemma OtherStep(cfg: Config, s: ProgrammerState, v: View, e: Event)
    requires Consistent(s) && Represents(s, v) && (e.payload == [] || !IsProgrammingService(e.payload[0]))
    ensures var o := Do(cfg, s, e); Represents(o.state, Note(v, e, o))
  {
    if Enabled(e) && e.payload[0] == SID_SESSION_CONTROL {
      SessionStep(cfg, s, v, e);
    } else if Enabled(e) && e.payload[0] == SID_TESTER_PRESENT {
      PresenceStep(cfg, s, v, e);
    } else {
      IdleStep(cfg, s, v, e);
    }
  }

  lemma TimeGoesOn(h: History, n: nat)
    requires Timed(h) && n < |h|
    ensures LastTime(h, n) <= h[n].event.now
  {
  }

  lemma RejectionsAreCounted(cfg: Config, h: History, n: nat)
    requires IsRun(cfg, h) && Timed(h) && n < |h|
    ensures Counts(StateAt(h, n), RejectTimes(h, n), h[n].event.now)
  {
    LockFollowsRejections(cfg, h, n);
    TimeGoesOn(h, n);
    LockIsCounted(StateAt(h, n), RejectTimes(h, n), LastTime(h, n), h[n].event.now);
  }

  lemma LockIsCounted(s: ProgrammerState, rejections: seq<real>, last: real, now: real)
    requires s.failures == |rejections| && last <= now
    requires if |rejections| < 3 then s.lockedUntil <= last else s.lockedUntil == rejections[|rejections| - 1] + 30.0
    ensures Counts(s, rejections, now)
  {
  }

  lemma {:induction false} AlwaysSeen(cfg: Config, h: History, n: nat)
    requires IsRun(cfg, h) && Timed(h) && n <= |h|
    ensures Represents(StateAt(h, n), Seen(h, n))
  {
    if n > 0 {
      AlwaysSeen(cfg, h, n - 1);
      NextSeen(cfg, h, n - 1);
    }
  }

  lemma NextSeen(cfg: Config, h: History, n: nat)
    requires IsRun(cfg, h) && Timed(h) && n < |h| && Represents(StateAt(h, n), Seen(h, n))
    ensures Represents(StateAt(h, n + 1), Seen(h, n + 1))
    ensures h[n].event.payload != [] && IsProgrammingService(h[n].event.payload[0]) ==>
      ServiceRight(cfg, Seen(h, n), RejectTimes(h, n), h[n].event, h[n].outcome)
  {
    var s, v, e := StateAt(h, n), Seen(h, n), h[n].event;
    assert Recorded(cfg, h, n);
    AlwaysConsistent(cfg, h, n);
    if e.payload != [] && IsProgrammingService(e.payload[0]) {
      RejectionsAreCounted(cfg, h, n);
      ServiceStep(cfg, s, v, RejectTimes(h, n), e);
    } else {
      OtherStep(cfg, s, v, e);
    }
  }

  /**
   What went over the bus decides every answer: a request for a programming service is answered positively exactly if
   the requests and answers so far entitle it to that, and every refusal gives a true reason.
   */
  lemma EveryAnswerIsRight(cfg: Config, h: History, n: nat)
    requires IsRun(cfg, h) && Timed(h) && n < |h|
    requires h[n].event.payload != [] && IsProgrammingService(h[n].event.payload[0])
    ensures ServiceRight(cfg, Seen(h, n), RejectTimes(h, n), h[n].event, h[n].outcome)
  {
    AlwaysSeen(cfg, h, n);
    NextSeen(cfg, h, n);
  }

  // ----- the saved image

  /** An exit request that got as far as saving and verifying. */
  predicate SavesAt(h: History, n: nat) {
    && n < |h| && h[n].event.payload != [] && h[n].event.payload[0] == SID_TRANSFER_EXIT
    && |h[n].outcome.responses| == 2
  }

  /** The data of the last such exit: sessions, resets and further downloads leave what was saved alone. */
  function LastSaved(h: History, n: nat): Option<Bytes>
    requires n <= |h|
  {
    if n == 0 then None else if SavesAt(h, n - 1) then Some(Seen(h, n - 1).data) else LastSaved(h, n - 1)
  }

  predicate Saves(e: Event, o: Outcome) {
    e.payload != [] && e.payload[0] == SID_TRANSFER_EXIT && |o.responses| == 2
  }

  lemma SavedInSession(cfg: Config, s: ProgrammerState, v: View, e: Event)
    requires Consistent(s) && v.live && Represents(s, v) && e.payload != [] && IsProgrammingService(e.payload[0])
    ensures var o := InSession(cfg, s, e.payload, e.now);
      o.state.receiver.saved == if Saves(e, o) then Some(v.data) else s.receiver.saved
  {
    if e.payload[0] == SID_SECURITY_ACCESS {
      assert SecurityAccess(cfg, s, e.payload, e.now).state.receiver == s.receiver;
    } else if e.payload[0] == SID_ROUTINE_CONTROL {
      assert RoutineControl(s, e.payload).state.receiver.saved == s.receiver.saved;
    } else if e.payload[0] == SID_REQUEST_DOWNLOAD {
      assert RequestDownload(s, e.payload).state.receiver.saved == s.receiver.saved;
    } else if e.payload[0] == SID_TRANSFER_DATA {
      assert TransferData(s, e.payload).state.receiver.saved == s.receiver.saved;
    } else if e.payload[0] == SID_TRANSFER_EXIT {
      SavedAtExit(cfg, s, v);
    }
  }

  lemma SavedAtExit(cfg: Config, s: ProgrammerState, v: View)
    requires Consistent(s) && v.live && Represents(s, v)
    ensures var o := TransferExit(cfg, s);
      o.state.receiver.saved == if |o.responses| == 2 then Some(v.data) else s.receiver.saved
  {
  }

  lemma SavedStep(cfg: Config, s: ProgrammerState, v: View, e: Event)
    requires Consistent(s) && Represents(s, v)
    ensures var o := Do(cfg, s, e);
      o.state.receiver.saved == if Saves(e, o) then Some(v.data) else s.receiver.saved
  {
    if Enabled(e) && IsProgrammingService(e.payload[0]) && v.live && !Late(v, e) {
      var t := s.(sessionStartedAt := e.now);
      SavedInSession(cfg, t, v.(refreshed := e.now), e);
      assert Do(cfg, s, e) == InSession(cfg, t, e.payload, e.now);
    } else {
      NothingSavedElsewhere(cfg, s, v, e);
    }
  }

  lemma NothingSavedElsewhere(cfg: Config, s: ProgrammerState, v: View, e: Event)
    requires Represents(s, v)
    requires !Enabled(e) || !IsProgrammingService(e.payload[0]) || !v.live || Late(v, e)
    ensures !Saves(e, Do(cfg, s, e)) && Do(cfg, s, e).state.receiver == s.receiver
  {
  }

  lemma {:induction false} SavedIsLastExit(cfg: Config, h: History, n: nat)
    requires IsRun(cfg, h) && Timed(h) && n <= |h|
    ensures StateAt(h, n).receiver.saved == LastSaved(h, n)
  {
    if n > 0 {
      SavedIsLastExit(cfg, h, n - 1);
      AlwaysSeen(cfg, h, n - 1);
      AlwaysConsistent(cfg, h, n - 1);
      assert Recorded(cfg, h, n - 1);
      SavedStep(cfg, StateAt(h, n - 1), Seen(h, n - 1), h[n - 1].event);
    }
  }

  // ----- keys and seeds

  /** Request `n` reaches an open session. */
  predicate Reaches(h: History, n: nat) {
    n < |h| && Keeps(h[n].event) && Seen(h, n).live && !Late(Seen(h, n), h[n].event)
  }

  predicate SendsKey(e: Event) {
    |e.payload| >= 2 && e.payload[0] == SID_SECURITY_ACCESS && e.payload[1] == SEND_KEY
  }

  lemma KeyVerdict(cfg: Config, v: View, rejections: seq<real>, e: Event, o: Outcome)
    requires SendsKey(e) && ServiceRight(cfg, v, rejections, e, o)
    ensures var open := Enabled(e) && v.live && !Late(v, e) && v.access.Offered?;
      && (IsKeyAccepted(e, o) <==> open && e.payload[2..] == cfg.deriveKey(v.access.seed))
      && (IsKeyRejected(e, o) ==> open && e.payload[2..] != cfg.deriveKey(v.access.seed))
      && (open && e.payload[2..] != cfg.deriveKey(v.access.seed) ==>
            FinalAnswer(o) == Negative(SID_SECURITY_ACCESS,
                                       if |rejections| >= 2 then NRC_EXCEED_ATTEMPTS else NRC_INVALID_KEY))
      && (IsKeyAccepted(e, o) ==> Note(v, e, o).access.Open?)
  {
  }

  /**
   Keys are judged by the seed that is on offer: the right one and only that one is accepted and unlocks the ECU, any
   other is rejected and leaves it locked. From the third rejection in a row on, the answer says so.
   */
  lemma KeysAreJudged(cfg: Config, h: History, n: nat)
    requires IsRun(cfg, h) && Timed(h) && n < |h| && SendsKey(h[n].event)
    ensures var access, key := Seen(h, n).access, h[n].event.payload[2..];
      && (KeyAt(h, n) <==> Reaches(h, n) && access.Offered? && key == cfg.deriveKey(access.seed))
      && (RejectedAt(h, n) <==> Reaches(h, n) && access.Offered? && key != cfg.deriveKey(access.seed))
    ensures KeyAt(h, n) ==> StateAt(h, n + 1).unlocked
    ensures RejectedAt(h, n) ==>
      && !StateAt(h, n + 1).unlocked
      && FinalAnswer(h[n].outcome)
         == Negative(SID_SECURITY_ACCESS,
                     if |RejectTimes(h, n + 1)| >= 3 then NRC_EXCEED_ATTEMPTS else NRC_INVALID_KEY)
  {
    EveryAnswerIsRight(cfg, h, n);
    KeyVerdict(cfg, Seen(h, n), RejectTimes(h, n), h[n].event, h[n].outcome);
    AlwaysSeen(cfg, h, n + 1);
    assert Recorded(cfg, h, n);
    StepIsSecure(cfg, StateAt(h, n), h[n].event);
  }

  /** A request that touches the access: it gives a seed, judges a key, or opens or ends a session. */
  predicate TouchesAccess(e: Event, o: Outcome) {
    IsSession(e, o) || IsReset(e, o) || IsSeed(e, o) || IsKeyAccepted(e, o) || IsKeyRejected(e, o)
  }

  predicate TouchedAt(h: History, n: nat) { n < |h| && TouchesAccess(h[n].event, h[n].outcome) }

  lemma AccessNote(cfg: Config, v: View, rejections: seq<real>, e: Event, o: Outcome)
    requires e.payload != [] && IsProgrammingService(e.payload[0]) ==> ServiceRight(cfg, v, rejections, e, o)
    requires Note(v, e, o).access.Offered? && (Note(v, e, o).live ==> Note(v, e, o).access.seed != [])
    ensures TouchesAccess(e, o) ==>
      IsSeed(e, o) && |FinalAnswer(o)| >= 2 && FinalAnswer(o)[2..] == Note(v, e, o).access.seed
    ensures !TouchesAccess(e, o) ==> v.access == Note(v, e, o).access
  {
  }

  lemma OfferedNotEmpty(s: ProgrammerState, v: View)
    requires Represents(s, v) && v.access.Offered?
    ensures v.live ==> v.access.seed != []
  {
  }

  /** What the answer to request `n` changes about the access. */
  lemma AccessStep(cfg: Config, h: History, n: nat)
    requires IsRun(cfg, h) && Timed(h) && n < |h| && Seen(h, n + 1).access.Offered?
    ensures TouchedAt(h, n) ==>
      SeedAt(h, n) && FinalAnswer(h[n].outcome) == [0x67, 0x01] + Seen(h, n + 1).access.seed
    ensures !TouchedAt(h, n) ==> Seen(h, n).access == Seen(h, n + 1).access
  {
    AlwaysSeen(cfg, h, n);
    AlwaysSeen(cfg, h, n + 1);
    NextSeen(cfg, h, n);
    OfferedNotEmpty(StateAt(h, n + 1), Seen(h, n + 1));
    AccessNote(cfg, Seen(h, n), RejectTimes(h, n), h[n].event, h[n].outcome);
    if SeedAt(h, n) {
      SeedAnswer(cfg, h, n);
    }
  }

  lemma SeedAnswer(cfg: Config, h: History, n: nat)
    requires IsRun(cfg, h) && n < |h| && SeedAt(h, n)
    ensures FinalAnswer(h[n].outcome) == [0x67, 0x01] + StateAt(h, n + 1).pendingSeed
  {
    assert Recorded(cfg, h, n);
  }

  /** A seed on offer after request `n` was given by it, or was there before and is untouched. */
  predicate OfferKept(h: History, before: Access, after: Access, n: nat)
    requires n < |h|
  {
    after.Offered? ==>
      if TouchedAt(h, n) then SeedAt(h, n) && FinalAnswer(h[n].outcome) == [0x67, 0x01] + after.seed
      else before == after
  }

  predicate KeptBy(h: History, access: nat -> Access, n: nat) {
    n < |h| && OfferKept(h, access(n), access(n + 1), n)
  }

  lemma {:induction false} LastOffer(h: History, access: nat -> Access, n: nat) returns (m: nat)
    requires n <= |h| && access(n).Offered? && !access(0).Offered? && forall i: nat | i < n :: KeptBy(h, access, i)
    ensures m < n && SeedAt(h, m) && FinalAnswer(h[m].outcome) == [0x67, 0x01] + access(n).seed
    ensures forall j: nat | m < j < n :: !TouchedAt(h, j)
  {
    assert KeptBy(h, access, n - 1);
    m := n - 1;
    if !TouchedAt(h, n - 1) {
      m := LastOffer(h, access, n - 1);
    }
  }

  function AccessAt(h: History, n: nat): Access {
    if n <= |h| then Seen(h, n).access else Shut
  }

  lemma AccessIsKept(cfg: Config, h: History, n: nat)
    requires IsRun(cfg, h) && Timed(h) && n < |h|
    ensures OfferKept(h, AccessAt(h, n), AccessAt(h, n + 1), n)
  {
    if Seen(h, n + 1).access.Offered? {
      AccessStep(cfg, h, n);
    }
  }

  lemma AllKept(cfg: Config, h: History, access: nat -> Access)
    requires IsRun(cfg, h) && Timed(h) && forall i :: access(i) == AccessAt(h, i)
    ensures forall i: nat | i < |h| :: KeptBy(h, access, i)
  {
    forall i: nat | i < |h| ensures KeptBy(h, access, i) {
      AccessIsKept(cfg, h, i);
    }
  }

  /** The seed on offer is the one last given, with no session, reset, seed or judged key since. */
  lemma OfferedSince(cfg: Config, h: History, n: nat) returns (m: nat)
    requires IsRun(cfg, h) && Timed(h) && n <= |h| && AccessAt(h, n).Offered?
    ensures m < n && SeedAt(h, m) && FinalAnswer(h[m].outcome) == [0x67, 0x01] + AccessAt(h, n).seed
    ensures forall j: nat | m < j < n :: !TouchedAt(h, j)
  {
    var access := (i: nat) => AccessAt(h, i);
    AllKept(cfg, h, access);
    m := LastOffer(h, access, n);
  }

  /** How many seeds were given before request `n`. */
  function SeedCount(h: History, n: nat): nat
    requires n <= |h|
  {
    if n == 0 then 0 else SeedCount(h, n - 1) + if SeedAt(h, n - 1) then 1 else 0
  }

  lemma SeedCounterStep(cfg: Config, s: ProgrammerState, e: Event)
    ensures var o := Do(cfg, s, e);
      o.state.seedCounter == if IsSeed(e, o) then (s.seedCounter + 1) % TWO_POW_32 else s.seedCounter
    ensures var o := Do(cfg, s, e);
      IsSeed(e, o) ==> FinalAnswer(o) == [0x67, 0x01] + SeedBytes(cfg.ecuId, o.state.seedCounter)
  {
    if Enabled(e) && IsProgrammingService(e.payload[0]) && Expire(s, e.now).session == SESSION_PROGRAMMING {
      var t := Expire(s, e.now).(sessionStartedAt := e.now);
      assert Do(cfg, s, e) == InSession(cfg, t, e.payload, e.now);
      SeedCounterInSession(cfg, t, e);
    } else {
      NoSeedElsewhere(cfg, s, e);
    }
  }

  lemma NoSeedElsewhere(cfg: Config, s: ProgrammerState, e: Event)
    requires !Enabled(e) || !IsProgrammingService(e.payload[0]) || Expire(s, e.now).session != SESSION_PROGRAMMING
    ensures !IsSeed(e, Do(cfg, s, e)) && Do(cfg, s, e).state.seedCounter == s.seedCounter
  {
  }

  lemma SeedCounterInSession(cfg: Config, s: ProgrammerState, e: Event)
    requires e.payload != [] && IsProgrammingService(e.payload[0])
    ensures var o := InSession(cfg, s, e.payload, e.now);
      o.state.seedCounter == if IsSeed(e, o) then (s.seedCounter + 1) % TWO_POW_32 else s.seedCounter
    ensures var o := InSession(cfg, s, e.payload, e.now);
      IsSeed(e, o) ==> FinalAnswer(o) == [0x67, 0x01] + SeedBytes(cfg.ecuId, o.state.seedCounter)
  {
    if e.payload[0] == SID_SECURITY_ACCESS {
      SeedCounterOnAccess(cfg, s, e);
    } else {
      SeedCounterElsewhere(cfg, s, e.payload, e.now);
    }
  }

  lemma SeedCounterOnAccess(cfg: Config, s: ProgrammerState, e: Event)
    requires e.payload != [] && e.payload[0] == SID_SECURITY_ACCESS
    ensures var o := SecurityAccess(cfg, s, e.payload, e.now);
      && (o.state.seedCounter == if IsSeed(e, o) then (s.seedCounter + 1) % TWO_POW_32 else s.seedCounter)
      && (IsSeed(e, o) ==> FinalAnswer(o) == [0x67, 0x01] + SeedBytes(cfg.ecuId, o.state.seedCounter))
  {
    if |e.payload| >= 2 && e.payload[1] == REQUEST_SEED {
      SeedRequestCounts(cfg, s, e.now);
    } else if |e.payload| >= 2 && e.payload[1] == SEND_KEY {
      assert SecurityAccess(cfg, s, e.payload, e.now) == SendKey(cfg, s, e.payload[2..], e.now);
    }
  }

  lemma SeedRequestCounts(cfg: Config, s: ProgrammerState, now: real)
    ensures var o := RequestSeed(cfg, s, now);
      && (o.state.seedCounter == if IsPositiveResponse(FinalAnswer(o), SID_SECURITY_ACCESS)
                                 then (s.seedCounter + 1) % TWO_POW_32 else s.seedCounter)
      && (IsPositiveResponse(FinalAnswer(o), SID_SECURITY_ACCESS) ==>
            FinalAnswer(o) == [0x67, 0x01] + SeedBytes(cfg.ecuId, o.state.seedCounter))
  {
  }

  lemma SeedCounterElsewhere(cfg: Config, s: ProgrammerState, p: Bytes, now: real)
    requires p != [] && IsProgrammingService(p[0]) && p[0] != SID_SECURITY_ACCESS
    ensures InSession(cfg, s, p, now).state.seedCounter == s.seedCounter
  {
    if p[0] == SID_ROUTINE_CONTROL {
      assert RoutineControl(s, p).state.seedCounter == s.seedCounter;
    } else if p[0] == SID_REQUEST_DOWNLOAD {
      assert RequestDownload(s, p).state.seedCounter == s.seedCounter;
    } else if p[0] == SID_TRANSFER_DATA {
      assert TransferData(s, p).state.seedCounter == s.seedCounter;
    } else if p[0] == SID_TRANSFER_EXIT {
      assert TransferExit(cfg, s).state.seedCounter == s.seedCounter;
    }
  }

  /** Seeds are numbered: the n-th seed given is made from the ECU's id and n, whatever happened in between. */
  lemma {:induction false} SeedsAreNumbered(cfg: Config, h: History, n: nat)
    requires IsRun(cfg, h) && n <= |h|
    ensures StateAt(h, n).seedCounter == SeedCount(h, n) % TWO_POW_32
    ensures n > 0 && SeedAt(h, n - 1) ==>
      FinalAnswer(h[n - 1].outcome) == [0x67, 0x01] + SeedBytes(cfg.ecuId, SeedCount(h, n) % TWO_POW_32)
  {
    if n > 0 {
      SeedsAreNumbered(cfg, h, n - 1);
      assert Recorded(cfg, h, n - 1);
      SeedCounterStep(cfg, StateAt(h, n - 1), h[n - 1].event);
      NextCount(SeedCount(h, n - 1));
    }
  }

  lemma NextCount(a: nat)
    ensures (a % TWO_POW_32 + 1) % TWO_POW_32 == (a + 1) % TWO_POW_32
  {
  }

  /** Up to seed number 65535 the high half is the ECU's id, and the low half the number. */
  lemma EarlySeeds(ecuId: nat, counter: nat)
    requires counter < TWO_POW_16
    ensures SeedBytes(ecuId, counter) == U16(ecuId % TWO_POW_16) + U16(counter)
  {
    assert counter / TWO_POW_16 == 0 && counter % TWO_POW_16 == counter;
    assert BitOr(ecuId % TWO_POW_16, 0) == ecuId % TWO_POW_16;
  }

  /** A seed does not come back within 65535 seeds: an answer to an old one cannot be replayed until then. */
  lemma SeedsDiffer(cfg: Config, h: History, m: nat, n: nat)
    requires IsRun(cfg, h) && m < n < |h| && SeedAt(h, m) && SeedAt(h, n)
    requires SeedCount(h, n + 1) - SeedCount(h, m + 1) < TWO_POW_16
    ensures FinalAnswer(h[m].outcome) != FinalAnswer(h[n].outcome)
  {
    SeedsAreNumbered(cfg, h, m + 1);
    SeedsAreNumbered(cfg, h, n + 1);
    CountGrows(h, m + 1, n);
    var a, b := SeedCount(h, m + 1), SeedCount(h, n + 1);
    SeedBytesDiffer(cfg.ecuId, a, b);
    assert FinalAnswer(h[m].outcome)[2..] == SeedBytes(cfg.ecuId, a % TWO_POW_32);
    assert FinalAnswer(h[n].outcome)[2..] == SeedBytes(cfg.ecuId, b % TWO_POW_32);
  }

  lemma {:induction false} CountGrows(h: History, m: nat, n: nat)
    requires m <= n <= |h|
    ensures SeedCount(h, m) <= SeedCount(h, n)
    decreases n
  {
    if m < n {
      CountGrows(h, m, n - 1);
    }
  }

  lemma LowBytes(ecuId: nat, counter: nat)
    requires counter < TWO_POW_32
    ensures |SeedBytes(ecuId, counter)| == 4 && SeedBytes(ecuId, counter)[2..] == U16(counter % TWO_POW_16)
  {
  }

  lemma LowPart(a: nat)
    ensures a % TWO_POW_32 % TWO_POW_16 == a % TWO_POW_16
  {
  }

  lemma NearbyDiffer(a: nat, b: nat)
    requires a < b < a + TWO_POW_16
    ensures a % TWO_POW_16 != b % TWO_POW_16
  {
  }

  lemma SeedBytesDiffer(ecuId: nat, a: nat, b: nat)
    requires a < b < a + TWO_POW_16
    ensures SeedBytes(ecuId, a % TWO_POW_32)[2..] != SeedBytes(ecuId, b % TWO_POW_32)[2..]
  {
    LowBytes(ecuId, a % TWO_POW_32);
    LowBytes(ecuId, b % TWO_POW_32);
    LowPart(a);
    LowPart(b);
    NearbyDiffer(a, b);
    U16RoundTrip(a % TWO_POW_16);
    U16RoundTrip(b % TWO_POW_16);
  }

  // ----- the services that need no session

  /**
   The software version can always be read, and is what the ECU was built with; a session request and a tester present
   are always answered; whatever else there is, is refused. Only the first two touch the state.
   */
  lemma OtherServices(cfg: Config, s: ProgrammerState, e: Event)
    requires e.payload != [] && !IsProgrammingService(e.payload[0])
    ensures var p, o := e.payload, Do(cfg, s, e);
      && (p[0] == SID_READ_DATA && e.control.diagnosticsEnabled ==>
            o.responses == [if |p| < 3 then Negative(p[0], NRC_INCORRECT_LENGTH)
                            else if p[1..3] == U16(DID_SOFTWARE_VERSION) then [0x62] + p[1..3] + cfg.version
                            else Negative(p[0], NRC_REQUEST_OUT_OF_RANGE)])
      && (p[0] in {SID_SESSION_CONTROL, SID_TESTER_PRESENT} && e.control.diagnosticsEnabled ==>
            o.responses == [[p[0] + 0x40, if |p| > 1 then p[1] else 0x00]])
      && (p[0] !in {SID_READ_DATA, SID_SESSION_CONTROL, SID_TESTER_PRESENT} && e.control.diagnosticsEnabled ==>
            o.responses == [Negative(p[0], NRC_SERVICE_NOT_SUPPORTED)])
      && (!e.control.diagnosticsEnabled ==> o.responses == [Negative(p[0], NRC_CONDITIONS_NOT_CORRECT)])
      && (p[0] in {SID_SESSION_CONTROL, SID_TESTER_PRESENT} || o.state == s)
      && (!e.control.diagnosticsEnabled ==> o.state == s)
      && !o.installs
  {
    var p := e.payload;
    if |p| >= 3 {
      U16RoundTrip(DID_SOFTWARE_VERSION);
      assert p[1..3] == [p[1], p[2]];
      assert FromBigEndian(p[1..3]) == DID_SOFTWARE_VERSION <==> p[1..3] == U16(DID_SOFTWARE_VERSION);
    }
  }
}
