/**
 Runs of staging, rebooting and validating, without power loss (ecus/base/slot_manager.py,
 ecus/base/version_manager.py, ecus/base/reboot_manager.py, tcu/post_install_validator.py), and what a power
 loss between the two state files does.
 */
module UpdateLifecycle {
  import opened Base
  import opened FlashMemory
  import opened EcuStorage
  import opened EcuBoot

  /** The confirmed version runs from the confirmed slot and nothing is pending, by both state files. */
  predicate RunsConfirmed(d: Disk) {
    var s, v := d.slots, d.versions;
    && s.pendingSlot.None? && s.pendingVersion.None? && s.bootAttempts == 0
    && v.pendingSlot.None? && v.pending.None? && !v.pendingCommit && v.bootAttempts == 0
    && v.current == v.confirmed
    && s.activeSlot == s.confirmedSlot == v.activeSlot == v.confirmedSlot
  }

  predicate IsPending(d: Disk) {
    d.slots.pendingSlot.Some?
  }

  /** The pending version has been booted at least once, and runs. */
  predicate OnTrial(d: Disk) {
    var s, v := d.slots, d.versions;
    IsPending(d) && s.bootAttempts > 0 && s.pendingSlot == Some(s.activeSlot) && v.pending == Some(v.current)
  }

  /** version.json and slot_state.json tell the same story. */
  predicate Agree(d: Disk) {
    var s, v := d.slots, d.versions;
    && s.activeSlot == v.activeSlot && s.confirmedSlot == v.confirmedSlot && s.pendingSlot == v.pendingSlot
    && s.pendingVersion == v.pending && s.bootAttempts == v.bootAttempts
    && v.pendingCommit == s.pendingSlot.Some? == v.pending.Some? && s.rollbackReason == v.rollbackReason
    && if !IsPending(d) then RunsConfirmed(d)
       else
         && s.pendingSlot.value == Other(s.confirmedSlot) && !JournalRequiresRecovery(d)
         && s.bootAttempts <= s.maxBootAttempts && s.rollbackReason == NoReason
         && (OnTrial(d) || (s.bootAttempts == 0 && s.activeSlot == s.confirmedSlot && v.current == v.confirmed))
  }

  // ----- reboots

  /** What a reboot does to files that agree: it boots the pending version once more, or gives it up. */
  lemma RebootEffect(d: Disk)
    requires Agree(d)
    ensures var e := Rebooted(d);
      && Agree(e) && SameFlash(d, e) && e.slots.confirmedSlot == d.slots.confirmedSlot
      && e.versions.confirmed == d.versions.confirmed && e.slots.maxBootAttempts == d.slots.maxBootAttempts
      && (!IsPending(d) ==> e == d)
      && (IsPending(d) && d.slots.bootAttempts < d.slots.maxBootAttempts ==>
            OnTrial(e) && e.slots.bootAttempts == d.slots.bootAttempts + 1 && e.slots.pendingSlot == d.slots.pendingSlot
            && e.versions.pending == d.versions.pending)
      && (IsPending(d) && d.slots.bootAttempts >= d.slots.maxBootAttempts ==>
            RunsConfirmed(e) && e.slots.rollbackReason == BootAttemptLimitExceeded)
      && (IsPending(d) ==> e.slots.previousSlot == d.slots.activeSlot)
  {
    if ShouldRollback(d) {
      RollbackEnd(d, BootAttemptLimitExceeded);
    } else {
      TrialBootEnd(d);
    }
  }

  ghost predicate RebootedAt(disks: seq<Disk>, i: nat)
    requires i + 1 < |disks|
  {
    disks[i + 1] == Rebooted(disks[i])
  }

  /** Each disk is the one before it after one more reboot. */
  ghost predicate AreReboots(disks: seq<Disk>) {
    disks != [] && forall i: nat {:trigger RebootedAt(disks, i)} | i + 1 < |disks| :: RebootedAt(disks, i)
  }

  /** How far `n` reboots have got from `d`: still on trial within the limit, or back on the confirmed version. */
  predicate AfterReboots(d: Disk, n: nat, e: Disk) {
    && Agree(e) && SameFlash(d, e) && e.slots.maxBootAttempts == d.slots.maxBootAttempts
    && e.slots.confirmedSlot == d.slots.confirmedSlot && e.versions.confirmed == d.versions.confirmed
    && (IsPending(e) <==> IsPending(d) && d.slots.bootAttempts + n <= d.slots.maxBootAttempts)
    && (IsPending(e) ==> e.slots.bootAttempts == d.slots.bootAttempts + n && e.versions.pending == d.versions.pending)
    && (IsPending(e) && n > 0 ==> OnTrial(e))
    && (!IsPending(e) ==> RunsConfirmed(e))
  }

  lemma OneMoreReboot(d: Disk, n: nat, e: Disk, next: Disk)
    requires Agree(d) && AfterReboots(d, n, e) && next == Rebooted(e)
    ensures AfterReboots(d, n + 1, next)
  {
    RebootEffect(e);
  }

  lemma NextReboot(disks: seq<Disk>, n: nat)
    requires AreReboots(disks) && n + 1 < |disks| && Agree(disks[0]) && AfterReboots(disks[0], n, disks[n])
    ensures AfterReboots(disks[0], n + 1, disks[n + 1])
  {
    assert RebootedAt(disks, n);
    OneMoreReboot(disks[0], n, disks[n], disks[n + 1]);
  }

  /**
   Trial boots are bounded: over any number of reboots, a pending version is still on trial after the n-th
   exactly as long as its boot attempts have not passed the limit, and from then on the confirmed version
   runs from the confirmed slot with nothing pending.
   */
  lemma {:induction false} TrialBootsAreBounded(disks: seq<Disk>, n: nat)
    requires AreReboots(disks) && Agree(disks[0]) && n < |disks|
    ensures AfterReboots(disks[0], n, disks[n])
  {
    if n > 0 {
      TrialBootsAreBounded(disks, n - 1);
      NextReboot(disks, n - 1);
    }
  }

  /** In particular one reboot more than the limit always ends on the confirmed version. */
  lemma LimitPlusOneRebootsRecover(disks: seq<Disk>)
    requires AreReboots(disks) && Agree(disks[0]) && |disks| == disks[0].slots.maxBootAttempts + 2
    ensures var d, e := disks[0], disks[|disks| - 1];
      RunsConfirmed(e) && e.versions.confirmed == d.versions.confirmed && e.slots.confirmedSlot == d.slots.confirmedSlot
  {
    TrialBootsAreBounded(disks, |disks| - 1);
  }

  // ----- validation

  function Validated(d: Disk, expected: Version): Disk {
    After(d, ValidateWrites(d, d.versions.current, expected))
  }

  /**
   A validation leaves the files in agreement exactly when it does not confirm a pending version that was never
   booted, that is unless the campaign expects the very version that is still confirmed.
   */
  lemma ValidationKeepsAgreement(d: Disk, expected: Version)
    requires Agree(d)
    ensures Agree(Validated(d, expected)) <==> !IsPending(d) || OnTrial(d) || expected != d.versions.confirmed
    ensures SameFlash(d, Validated(d, expected))
    ensures !IsPending(d) ==> Validated(d, expected) == d
    ensures IsPending(d) && d.versions.current != expected ==>
      && RunsConfirmed(Validated(d, expected)) && Validated(d, expected).versions.confirmed == d.versions.confirmed
      && Validated(d, expected).slots.rollbackReason == ValidationFailed
      && Validated(d, expected).slots.previousSlot == d.slots.activeSlot
    ensures OnTrial(d) && d.versions.current == expected ==>
      && RunsConfirmed(Validated(d, expected)) && Validated(d, expected).versions.confirmed == expected
      && Validated(d, expected).slots.confirmedSlot == d.slots.activeSlot
      && Validated(d, expected).slots.rollbackReason == NoReason
      && Validated(d, expected).slots.previousSlot == d.slots.previousSlot
  {
    if IsPending(d) {
      if d.versions.current == expected {
        var first := d.(versions := ConfirmedAs(d.versions, expected));
        CommitShape(first);
        var w := CommitPendingWrites(first);
        assert Validated(d, expected) == w[|w| - 1];
      } else {
        RollbackEnd(d, ValidationFailed);
      }
    }
  }

  // ----- staging

  /** A completed installation up to its reboot: the other slot holds the payload and is pending in both files. */
  ghost predicate Staged(d: Disk, e: Disk, target: Version, payload: Bytes) {
    var slot := InactiveSlot(d);
    && e.slots == MarkedPending(d.slots, slot, target) && e.versions == PendingSet(d.versions, target, slot)
    && e.Files(d.slots.activeSlot) == d.Files(d.slots.activeSlot)
    && payload <= e.Files(slot).flash && e.Files(slot).journal == Some(PendingActivation)
    && e.Files(slot).layout.Some? && e.Files(slot).control == Some(ControlBlock(true, false, false))
  }

  // ----- crash-free runs

  datatype Action = Stage(target: Version, payload: Bytes) | Reboot | Validate(expected: Version)

  /** Staging only starts with nothing pending; the version a campaign expects is not the one already confirmed. */
  ghost predicate Next(d: Disk, a: Action, e: Disk) {
    match a
    case Stage(target, payload) => !IsPending(d) && Staged(d, e, target, payload)
    case Reboot => e == Rebooted(d)
    case Validate(expected) => (IsPending(d) ==> expected != d.versions.confirmed) && e == Validated(d, expected)
  }

  ghost predicate NextAt(states: seq<Disk>, actions: seq<Action>, i: nat)
    requires i < |actions| && i + 1 < |states|
  {
    Next(states[i], actions[i], states[i + 1])
  }

  ghost predicate IsRun(states: seq<Disk>, actions: seq<Action>) {
    && |states| == |actions| + 1 && Agree(states[0])
    && forall i: nat {:trigger NextAt(states, actions, i)} | i < |actions| :: NextAt(states, actions, i)
  }

  /**
   What every step keeps: the flash of the confirmed slot is never touched, and the confirmed version and slot
   change only in a validation of the version on trial, which is the expected one.
   */
  ghost predicate StepIsSafe(d: Disk, a: Action, e: Disk) {
    && e.Files(d.slots.confirmedSlot).flash == d.Files(d.slots.confirmedSlot).flash
    && (e.versions.confirmed != d.versions.confirmed || e.slots.confirmedSlot != d.slots.confirmedSlot ==>
          a.Validate? && OnTrial(d) && d.versions.current == a.expected == e.versions.confirmed
          && e.slots.confirmedSlot == d.slots.activeSlot && RunsConfirmed(e))
  }

  /**
   The slot state remembers which slot was active before a reboot or a rollback touched it, and why the last pending
   version was given up.
   */
  ghost predicate StepIsRemembered(d: Disk, a: Action, e: Disk) {
    var gaveUp := IsPending(d) && !IsPending(e) && e.slots.confirmedSlot == d.slots.confirmedSlot;
    && (e.slots.previousSlot == if gaveUp || e.slots.bootAttempts > d.slots.bootAttempts then d.slots.activeSlot
                                else d.slots.previousSlot)
    && (e.slots.rollbackReason == if gaveUp then if a.Reboot? then BootAttemptLimitExceeded else ValidationFailed
                                  else if IsPending(d) || IsPending(e) then NoReason
                                  else d.slots.rollbackReason)
  }

  lemma StepKeepsAgreement(d: Disk, a: Action, e: Disk)
    requires Agree(d) && Next(d, a, e)
    ensures Agree(e) && StepIsSafe(d, a, e) && StepIsRemembered(d, a, e)
  {
    match a
    case Stage(target, payload) =>
    case Reboot => RebootEffect(d);
    case Validate(expected) => ValidationKeepsAgreement(d, expected);
  }

  lemma StepAtIsSafe(states: seq<Disk>, actions: seq<Action>, i: nat)
    requires IsRun(states, actions) && i < |actions| && Agree(states[i])
    ensures Agree(states[i + 1]) && StepIsSafe(states[i], actions[i], states[i + 1])
      && StepIsRemembered(states[i], actions[i], states[i + 1])
  {
    assert NextAt(states, actions, i);
    StepKeepsAgreement(states[i], actions[i], states[i + 1]);
  }

  lemma {:induction false} RunsAgree(states: seq<Disk>, actions: seq<Action>, i: nat)
    requires IsRun(states, actions) && i < |states|
    ensures Agree(states[i])
  {
    if i > 0 {
      RunsAgree(states, actions, i - 1);
      StepAtIsSafe(states, actions, i - 1);
    }
  }

  /** Along every crash-free run the two state files agree and the confirmed image is preserved. */
  lemma RunsStaySafe(states: seq<Disk>, actions: seq<Action>, i: nat)
    requires IsRun(states, actions) && i < |actions|
    ensures Agree(states[i]) && Agree(states[i + 1]) && StepIsSafe(states[i], actions[i], states[i + 1])
      && StepIsRemembered(states[i], actions[i], states[i + 1])
  {
    RunsAgree(states, actions, i);
    StepAtIsSafe(states, actions, i);
  }

  // ----- power loss between the two files

  /** version.json has settled while slot_state.json still has a slot pending. */
  predicate Torn(d: Disk) {
    && !d.versions.pendingCommit && d.versions.pendingSlot.None? && IsPending(d) && !JournalRequiresRecovery(d)
  }

  lemma TornStep(d: Disk)
    requires Torn(d)
    ensures var e := Rebooted(d);
      && Torn(e) && e.versions == d.versions && e.slots.pendingSlot == d.slots.pendingSlot
      && e.slots.activeSlot == d.slots.pendingSlot.value
  {
    TrialBootEnd(d);
  }

  /** The version file never changes again, while every later reboot boots the pending slot. */
  lemma {:induction false} TornForever(disks: seq<Disk>, n: nat)
    requires AreReboots(disks) && Torn(disks[0]) && n < |disks|
    ensures Torn(disks[n]) && disks[n].versions == disks[0].versions
    ensures disks[n].slots.pendingSlot == disks[0].slots.pendingSlot
    ensures n > 0 ==> disks[n].slots.activeSlot == disks[n].slots.pendingSlot.value
  {
    if n > 0 {
      TornForever(disks, n - 1);
      assert RebootedAt(disks, n - 1);
      TornStep(disks[n - 1]);
    }
  }

  /** The disk when power fails after the first `j` of the writes `w`. */
  function Cut(d: Disk, w: Writes, j: nat): Disk
    requires j <= |w|
  {
    if j == 0 then d else w[j - 1]
  }

  /**
   Committing and rolling back are not crash-atomic. When power fails in the validation of a pending version, the
   files agree after any number of reboots exactly if the cut was not between the two files; after that one cut they
   never agree again. (A version that never booted is not validated as itself: see `ValidationKeepsAgreement`.)
   */
  lemma TornValidation(d: Disk, expected: Version, j: nat, disks: seq<Disk>, n: nat)
    requires Agree(d) && IsPending(d) && (OnTrial(d) || expected != d.versions.confirmed)
    requires j <= |ValidateWrites(d, d.versions.current, expected)|
    requires AreReboots(disks) && disks[0] == Cut(d, ValidateWrites(d, d.versions.current, expected), j) && n < |disks|
    ensures Agree(disks[n]) <==> j != 1
  {
    CutAgrees(d, expected, j);
    if j == 1 {
      TornForever(disks, n);
    } else {
      TrialBootsAreBounded(disks, n);
    }
  }

  lemma CutAgrees(d: Disk, expected: Version, j: nat)
    requires Agree(d) && IsPending(d) && (OnTrial(d) || expected != d.versions.confirmed)
    requires j <= |ValidateWrites(d, d.versions.current, expected)|
    ensures var c := Cut(d, ValidateWrites(d, d.versions.current, expected), j); if j == 1 then Torn(c) else Agree(c)
  {
    var w := ValidateWrites(d, d.versions.current, expected);
    var c := Cut(d, w, j);
    if d.versions.current == expected {
      var first := d.(versions := ConfirmedAs(d.versions, expected));
      CommitShape(first);
      assert j > 1 ==> c == CommitPendingWrites(first)[j - 2];
    } else {
      RollbackShape(d, ValidationFailed);
      assert j > 1 ==> c == w[1..][j - 2];
    }
  }

  /**
   The rollback of a reboot at the boot-attempt limit has the same gap: the files agree after any number of further
   reboots exactly if the power did not fail between them. After that one cut the version file names the confirmed
   version, and every later reboot boots the rejected image.
   */
  lemma TornRollback(d: Disk, j: nat, disks: seq<Disk>, n: nat)
    requires Agree(d) && OnTrial(d) && ShouldRollback(d) && j <= |RebootWrites(d)|
    requires AreReboots(disks) && disks[0] == Cut(d, RebootWrites(d), j) && n < |disks|
    ensures Agree(disks[n]) <==> j != 1
    ensures j == 1 && n > 0 ==>
      disks[n].versions.current == d.versions.confirmed && disks[n].slots.activeSlot == d.slots.pendingSlot.value
  {
    RollbackShape(d, BootAttemptLimitExceeded);
    var w := RebootWrites(d);
    assert w == RollbackWrites(d, BootAttemptLimitExceeded);
    assert j > 1 ==> disks[0] == w[1..][j - 2];
    if j == 1 {
      TornForever(disks, n);
    } else {
      TrialBootsAreBounded(disks, n);
    }
  }

  /** A trial boot that version.json knows of and slot_state.json does not. */
  predicate HalfBooted(d: Disk) {
    var s, v := d.slots, d.versions;
    && IsPending(d) && !JournalRequiresRecovery(d) && s.pendingSlot.value == Other(s.confirmedSlot)
    && v.pendingCommit && v.pendingSlot == s.pendingSlot && v.pending == s.pendingVersion && v.pending.Some?
    && s.confirmedSlot == v.confirmedSlot && v.bootAttempts == s.bootAttempts + 1
    && s.bootAttempts <= s.maxBootAttempts
  }

  lemma HalfBootedStep(d: Disk)
    requires HalfBooted(d)
    ensures var e := Rebooted(d);
      if d.slots.bootAttempts < d.slots.maxBootAttempts
      then
        && HalfBooted(e) && e.slots.bootAttempts == d.slots.bootAttempts + 1
        && e.slots.maxBootAttempts == d.slots.maxBootAttempts
      else Agree(e) && !IsPending(e)
  {
    if ShouldRollback(d) {
      RollbackEnd(d, BootAttemptLimitExceeded);
    } else {
      TrialBootEnd(d);
    }
  }

  /** What `n` reboots make of a half-booted disk: they catch up only when the boot attempts have run out. */
  predicate AfterHalfBoot(d: Disk, n: nat, e: Disk) {
    if d.slots.bootAttempts + n <= d.slots.maxBootAttempts
    then
      && HalfBooted(e) && e.slots.bootAttempts == d.slots.bootAttempts + n
      && e.slots.maxBootAttempts == d.slots.maxBootAttempts
    else Agree(e) && !IsPending(e)
  }

  lemma HalfBootedNext(d: Disk, n: nat, e: Disk, next: Disk)
    requires AfterHalfBoot(d, n, e) && next == Rebooted(e)
    ensures AfterHalfBoot(d, n + 1, next)
  {
    if d.slots.bootAttempts + n <= d.slots.maxBootAttempts {
      HalfBootedStep(e);
    } else {
      RebootEffect(e);
    }
  }

  lemma NextHalfBoot(disks: seq<Disk>, n: nat)
    requires AreReboots(disks) && n + 1 < |disks| && AfterHalfBoot(disks[0], n, disks[n])
    ensures AfterHalfBoot(disks[0], n + 1, disks[n + 1])
  {
    assert RebootedAt(disks, n);
    HalfBootedNext(disks[0], n, disks[n], disks[n + 1]);
  }

  lemma {:induction false} HalfBootedEnds(disks: seq<Disk>, n: nat)
    requires AreReboots(disks) && HalfBooted(disks[0]) && n < |disks|
    ensures AfterHalfBoot(disks[0], n, disks[n])
  {
    if n > 0 {
      HalfBootedEnds(disks, n - 1);
      NextHalfBoot(disks, n - 1);
    }
  }

  /**
   A trial boot has the gap too, but there it heals: when power fails in a trial boot, the files agree after n further
   reboots exactly if the cut was not between the two files or the boot attempts have run out in the meantime.
   */
  lemma TornTrialBoot(d: Disk, j: nat, disks: seq<Disk>, n: nat)
    requires Agree(d) && IsPending(d) && !ShouldRollback(d) && j <= |RebootWrites(d)|
    requires AreReboots(disks) && disks[0] == Cut(d, RebootWrites(d), j) && n < |disks|
    ensures Agree(disks[n]) <==> j != 1 || d.slots.bootAttempts + n > d.slots.maxBootAttempts
  {
    CutTrialBoot(d, j);
    if j == 1 {
      HalfBootedEnds(disks, n);
    } else {
      TrialBootsAreBounded(disks, n);
    }
  }

  lemma CutTrialBoot(d: Disk, j: nat)
    requires Agree(d) && IsPending(d) && !ShouldRollback(d) && j <= |RebootWrites(d)|
    ensures var c := Cut(d, RebootWrites(d), j);
      if j == 1 then HalfBooted(c) && c.slots == d.slots else Agree(c)
  {
    var first := d.(versions := Booted(d.versions));
    ActivateShape(first);
    var w, v := RebootWrites(d), ActivatePendingWrites(first);
    assert w == [first] + v;
    assert j > 1 ==> Cut(d, w, j) == v[j - 2];
  }
}
