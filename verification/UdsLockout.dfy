/** How often a tester can try keys on a `UDSCanProgrammer` (ecus/base/uds_can_programmer.py). */
module UdsLockout {
  import opened UdsCodec
  import opened UdsProgrammer
  import opened UdsSafety

  predicate RejectedAt(h: History, i: nat) {
    i < |h| && IsKeyRejected(h[i].event, h[i].outcome)
  }

  /** The request got a seed. */
  predicate SeedAt(h: History, i: nat) {
    && i < |h| && |h[i].event.payload| >= 2 && h[i].event.payload[1] == REQUEST_SEED
    && Answered(h[i].event, h[i].outcome, SID_SECURITY_ACCESS)
  }

  /** When keys were rejected since the last accepted one, before request `n`. */
  function RejectTimes(h: History, n: nat): seq<real>
    requires n <= |h|
  {
    if n == 0 then []
    else if RejectedAt(h, n - 1) then RejectTimes(h, n - 1) + [h[n - 1].event.now]
    else if KeyAt(h, n - 1) then []
    else RejectTimes(h, n - 1)
  }

  /** The time of the last request before `n`; zero if there is none. */
  function LastTime(h: History, n: nat): real
    requires n <= |h|
  {
    if n == 0 then 0.0 else h[n - 1].event.now
  }

  // ----- one request

  /** What one request does to the key counter, the lock and the seed. */
  ghost predicate SecurityStep(s: ProgrammerState, e: Event, o: Outcome) {
    var t := o.state;
    if IsKeyRejected(e, o) then
      && s.pendingSeed != [] && t.pendingSeed == [] && !t.unlocked && t.failures == s.failures + 1
      && t.lockedUntil == if t.failures >= ATTEMPT_LIMIT then e.now + LOCKOUT else s.lockedUntil
    else if IsKeyAccepted(e, o) then
      s.pendingSeed != [] && t.pendingSeed == [] && t.failures == 0 && t.lockedUntil == s.lockedUntil
    else
      && t.failures == s.failures && t.lockedUntil == s.lockedUntil && (t.unlocked ==> s.unlocked)
      && (t.pendingSeed != [] ==> s.pendingSeed != [] || s.lockedUntil <= e.now)
  }

  lemma SendKeyStep(cfg: Config, s: ProgrammerState, e: Event)
    requires |e.payload| >= 2 && e.payload[0] == SID_SECURITY_ACCESS && e.payload[1] == SEND_KEY
    ensures SecurityStep(s, e, SecurityAccess(cfg, s, e.payload, e.now))
  {
  }

  lemma SecurityAccessStep(cfg: Config, s: ProgrammerState, e: Event)
    requires e.payload != [] && e.payload[0] == SID_SECURITY_ACCESS
    ensures SecurityStep(s, e, SecurityAccess(cfg, s, e.payload, e.now))
  {
    if |e.payload| >= 2 && e.payload[1] == SEND_KEY {
      SendKeyStep(cfg, s, e);
    }
  }

  lemma OtherServiceStep(cfg: Config, s: ProgrammerState, e: Event)
    requires e.payload != [] && IsProgrammingService(e.payload[0]) && e.payload[0] != SID_SECURITY_ACCESS
    ensures SecurityStep(s, e, InSession(cfg, s, e.payload, e.now))
  {
  }

  lemma InSessionIsSecure(cfg: Config, s: ProgrammerState, e: Event)
    requires e.payload != [] && IsProgrammingService(e.payload[0])
    ensures SecurityStep(s, e, InSession(cfg, s, e.payload, e.now))
  {
    if e.payload[0] == SID_SECURITY_ACCESS {
      SecurityAccessStep(cfg, s, e);
    } else {
      OtherServiceStep(cfg, s, e);
    }
  }

  lemma RefusedIsSecure(s: ProgrammerState, e: Event)
    requires e.payload != []
    ensures SecurityStep(s, e, Refuse(Expire(s, e.now), e.payload[0], NRC_NOT_IN_SESSION))
  {
  }

  lemma ElsewhereIsSecure(cfg: Config, s: ProgrammerState, e: Event)
    requires e.payload == [] || !IsProgrammingService(e.payload[0]) || !e.control.diagnosticsEnabled
          || !e.control.programmingEnabled
    ensures SecurityStep(s, e, Do(cfg, s, e))
  {
  }

  lemma StepIsSecure(cfg: Config, s: ProgrammerState, e: Event)
    ensures SecurityStep(s, e, Do(cfg, s, e))
  {
    var enabled := e.control.diagnosticsEnabled && e.control.programmingEnabled;
    if e.payload != [] && IsProgrammingService(e.payload[0]) && enabled {
      assert Do(cfg, s, e) == Programming(cfg, s, e.payload, e.now);
      if Expire(s, e.now).session == SESSION_PROGRAMMING {
        InSessionIsSecure(cfg, Expire(s, e.now).(sessionStartedAt := e.now), e);
      } else {
        RefusedIsSecure(s, e);
      }
    } else {
      ElsewhereIsSecure(cfg, s, e);
    }
  }

  // ----- whole runs

  /** From the fourth rejection on, each comes a whole lockout after the one before. */
  predicate Spaced(ts: seq<real>) {
    forall k | ATTEMPT_LIMIT <= k < |ts| :: ts[k] >= ts[k - 1] + LOCKOUT
  }

  ghost predicate Guarded(h: History, n: nat)
    requires n <= |h|
  {
    var s, ts, last := StateAt(h, n), RejectTimes(h, n), LastTime(h, n);
    && |ts| == s.failures && Spaced(ts)
    && (if |ts| < ATTEMPT_LIMIT then s.lockedUntil <= last else s.lockedUntil == ts[|ts| - 1] + LOCKOUT)
    && (s.pendingSeed != [] || s.unlocked ==> s.lockedUntil <= last)
  }

  lemma {:induction false} AlwaysGuarded(cfg: Config, h: History, n: nat)
    requires IsRun(cfg, h) && Timed(h) && n <= |h|
    ensures Guarded(h, n)
  {
    if n > 0 {
      AlwaysGuarded(cfg, h, n - 1);
      assert Recorded(cfg, h, n - 1);
      StepIsSecure(cfg, StateAt(h, n - 1), h[n - 1].event);
      assert LastTime(h, n - 1) <= LastTime(h, n);
    }
  }

  /** The lock, by the rejections so far. */
  lemma LockFollowsRejections(cfg: Config, h: History, n: nat)
    requires IsRun(cfg, h) && Timed(h) && n <= |h|
    ensures var s, ts := StateAt(h, n), RejectTimes(h, n);
      && s.failures == |ts|
      && if |ts| < 3 then s.lockedUntil <= LastTime(h, n) else s.lockedUntil == ts[|ts| - 1] + 30.0
  {
    AlwaysGuarded(cfg, h, n);
  }

  lemma {:induction false} SpacingAddsUp(ts: seq<real>, k: nat)
    requires Spaced(ts) && ATTEMPT_LIMIT - 1 <= k < |ts|
    ensures ts[k] >= ts[ATTEMPT_LIMIT - 1] + LOCKOUT * (k - (ATTEMPT_LIMIT - 1)) as real
  {
    if k >= ATTEMPT_LIMIT {
      SpacingAddsUp(ts, k - 1);
    }
  }

  /**
   With no accepted key in between, the n-th rejected key comes at least 30 * (n - 3) seconds after the third
   (counting from one), whatever else was requested meanwhile.
   */
  lemma RejectionsAreSlow(cfg: Config, h: History, m: nat, n: nat)
    requires IsRun(cfg, h) && Timed(h) && m <= |h|
    requires 3 <= n <= |RejectTimes(h, m)|
    ensures RejectTimes(h, m)[n - 1] >= RejectTimes(h, m)[2] + 30.0 * (n - 3) as real
  {
    AlwaysGuarded(cfg, h, m);
    SpacingAddsUp(RejectTimes(h, m), n - 1);
  }

  /** While the ECU is locked there is no seed to answer and nothing is unlocked, whatever sessions came and went. */
  lemma LockedMeansShut(cfg: Config, h: History, n: nat)
    requires IsRun(cfg, h) && Timed(h) && n <= |h| && LastTime(h, n) < StateAt(h, n).lockedUntil
    ensures StateAt(h, n).pendingSeed == [] && !StateAt(h, n).unlocked
    ensures |RejectTimes(h, n)| >= 3 && StateAt(h, n).lockedUntil == RejectTimes(h, n)[|RejectTimes(h, n)| - 1] + 30.0
  {
    AlwaysGuarded(cfg, h, n);
  }

  /**
   After three rejected keys in a row, for 30 seconds after the last of them no request gets a seed and no key is
   accepted or rejected.
   */
  lemma LockoutHolds(cfg: Config, h: History, n: nat)
    requires IsRun(cfg, h) && Timed(h) && n < |h|
    requires |RejectTimes(h, n)| >= 3 && h[n].event.now < RejectTimes(h, n)[|RejectTimes(h, n)| - 1] + 30.0
    ensures !SeedAt(h, n) && !KeyAt(h, n) && !RejectedAt(h, n)
  {
    AlwaysGuarded(cfg, h, n);
    assert LastTime(h, n) <= h[n].event.now;
    assert Recorded(cfg, h, n);
    StepIsSecure(cfg, StateAt(h, n), h[n].event);
    NoSeedWhileLocked(cfg, StateAt(h, n), h[n].event);
  }

  lemma NoSeedWhileLocked(cfg: Config, s: ProgrammerState, e: Event)
    requires e.now < s.lockedUntil
    ensures |e.payload| >= 2 && e.payload[1] == REQUEST_SEED ==> !Answered(e, Do(cfg, s, e), SID_SECURITY_ACCESS)
  {
  }
}
