/**
 What happens to an ECU's disk at a reboot (ecus/base/reboot_manager.py) and when the update is validated
 afterwards (the commit-or-rollback decision of tcu/post_install_validator.py).
 */
module EcuBoot {
  import opened Base
  import opened FlashMemory
  import opened EcuStorage

  /** Rolling back is two managers' work: first version.json, then slot_state.json. */
  function RollbackWrites(d: Disk, reason: RollbackReason): Writes {
    var first := d.(versions := RolledBackVersions(d.versions, reason));
    [first] + RollbackPendingWrites(first, reason)
  }

  /** Booting what is pending: first version.json, then slot_state.json. */
  function TrialBootWrites(d: Disk): Writes {
    var w := if d.versions.pendingCommit then BootWrites(d) else [];
    w + ActivatePendingWrites(After(d, w))
  }

  function RebootWrites(d: Disk): Writes {
    if JournalRequiresRecovery(d) then RollbackWrites(d, IncompleteFlashJournal)
    else if d.versions.pendingCommit && ShouldRollback(d) then RollbackWrites(d, BootAttemptLimitExceeded)
    else TrialBootWrites(d)
  }

  function Rebooted(d: Disk): Disk {
    After(d, RebootWrites(d))
  }

  /** `actual` is the version the ECU reports after the update. */
  function ValidateWrites(d: Disk, actual: Version, expected: Version): Writes {
    if !d.versions.pendingCommit then []
    else if actual == expected then
      var first := d.(versions := ConfirmedAs(d.versions, actual));
      [first] + CommitPendingWrites(first)
    else RollbackWrites(d, ValidationFailed)
  }

  datatype FirmwareStatus = Active | RolledBackStatus | PendingCommitStatus

  /** The volatile state of the ECU that a reboot updates. */
  class EcuState {
    var currentVersion: Version
    var firmwareStatus: FirmwareStatus
    var rebootCount: nat

    constructor (version: Version)
      ensures currentVersion == version && firmwareStatus == Active && rebootCount == 0
    {
      currentVersion, firmwareStatus, rebootCount := version, Active, 0;
    }
  }

  class RebootManager {
    const storage: Storage
    const state: EcuState
    const versionManager: VersionManager
    const slotManager: SlotManager

    constructor (state: EcuState, versionManager: VersionManager, slotManager: SlotManager)
      requires versionManager.storage == slotManager.storage
      ensures this.state == state && storage == slotManager.storage && Valid()
      ensures this.versionManager == versionManager && this.slotManager == slotManager
    {
      this.state, this.versionManager, this.slotManager := state, versionManager, slotManager;
      storage := slotManager.storage;
    }

    predicate Valid() {
      versionManager.storage == storage && slotManager.storage == storage
    }

    method Rollback(reason: RollbackReason)
      requires Valid()
      modifies storage
      ensures var w := RollbackWrites(old(storage.disk), reason);
        storage.trace == old(storage.trace) + w && storage.disk == After(old(storage.disk), w)
    {
      versionManager.RollbackPendingVersion(reason);
      slotManager.RollbackPending(reason);
    }

    method TrialBoot()
      requires Valid()
      modifies storage
      ensures var w := TrialBootWrites(old(storage.disk));
        storage.trace == old(storage.trace) + w && storage.disk == After(old(storage.disk), w)
    {
      ghost var d := storage.disk;
      ghost var w := if d.versions.pendingCommit then BootWrites(d) else [];
      AfterBoth(d, w, ActivatePendingWrites(After(d, w)));
      if storage.disk.versions.pendingCommit {
        var _ := versionManager.BootPendingVersion();
      }
      assert storage.disk == After(d, w) && storage.trace == old(storage.trace) + w;
      var _ := slotManager.ActivatePending();
    }

    method Reboot()
      requires Valid()
      modifies storage, state
      ensures storage.trace == old(storage.trace) + RebootWrites(old(storage.disk))
      ensures storage.disk == Rebooted(old(storage.disk))
      ensures state.currentVersion == storage.disk.versions.current && state.rebootCount == old(state.rebootCount) + 1
      ensures var gaveUp := old(storage.disk).slots.pendingSlot.Some? && storage.disk.slots.pendingSlot.None?;
        state.firmwareStatus == if gaveUp then RolledBackStatus else PendingCommitStatus
    {
      RollbackEnd(storage.disk, IncompleteFlashJournal);
      RollbackEnd(storage.disk, BootAttemptLimitExceeded);
      TrialBootEnd(storage.disk);
      var recover := slotManager.PendingJournalRequiresRecovery();
      var limit := slotManager.ShouldRollbackPending();
      if recover {
        Rollback(IncompleteFlashJournal);
        state.firmwareStatus := RolledBackStatus;
      } else if storage.disk.versions.pendingCommit && limit {
        Rollback(BootAttemptLimitExceeded);
        state.firmwareStatus := RolledBackStatus;
      } else {
        TrialBoot();
        state.firmwareStatus := PendingCommitStatus;
      }
      state.currentVersion, state.rebootCount := storage.disk.versions.current, state.rebootCount + 1;
    }

    /** The per-ECU decision of `validate`: whether the update passed. */
    method Validate(actual: Version, expected: Version) returns (passed: bool)
      requires Valid()
      modifies storage
      ensures passed == (actual == expected)
      ensures var w := ValidateWrites(old(storage.disk), actual, expected);
        storage.trace == old(storage.trace) + w && storage.disk == After(old(storage.disk), w)
    {
      passed := actual == expected;
      if storage.disk.versions.pendingCommit {
        if passed {
          versionManager.ConfirmVersion(actual);
          slotManager.CommitPending();
        } else {
          Rollback(ValidationFailed);
        }
      }
    }
  }

  // ----- what these writes leave alone

  /** Same flash, layout and download; only journals and control blocks may differ. */
  predicate SameFlash(d: Disk, e: Disk) {
    && (forall s: Slot :: e.Files(s).flash == d.Files(s).flash && e.Files(s).layout == d.Files(s).layout)
    && e.download == d.download
  }

  /** Every write of `w` leaves the two state files as they are in `d`, and the flash alone. */
  predicate OnlyMarks(d: Disk, w: Writes) {
    forall i | 0 <= i < |w| :: w[i].slots == d.slots && w[i].versions == d.versions && SameFlash(d, w[i])
  }

  /** In addition no slot's journal turns into an incomplete one. */
  predicate KeepsJournals(d: Disk, w: Writes) {
    forall i, s: Slot | 0 <= i < |w| :: !Incomplete(d.Files(s).journal) ==> !Incomplete(w[i].Files(s).journal)
  }

  lemma ActiveControlOnlyMarks(d: Disk, active: Slot, confirmed: bool)
    ensures OnlyMarks(d, ActiveControlWrites(d, active, confirmed))
    ensures KeepsJournals(d, ActiveControlWrites(d, active, confirmed))
  {
  }

  /** A trial boot: version.json, then slot_state.json, then marks. */
  lemma ActivateShape(d: Disk)
    requires d.slots.pendingSlot.Some?
    ensures var w, saved := ActivatePendingWrites(d), d.(slots := Activated(d.slots));
      w != [] && w[0] == saved && OnlyMarks(saved, w) && KeepsJournals(d, w)
  {
    var saved := d.(slots := Activated(d.slots));
    var w := [saved] + JournalWrites(saved, d.slots.pendingSlot.value, BootedPending);
    ActiveControlOnlyMarks(After(d, w), d.slots.pendingSlot.value, false);
  }

  lemma CommitShape(d: Disk)
    ensures var w, saved := CommitPendingWrites(d), d.(slots := Committed(d.slots));
      w != [] && w[0] == saved && OnlyMarks(saved, w) && KeepsJournals(d, w)
  {
    var saved := d.(slots := Committed(d.slots));
    var w := [saved] + JournalWrites(saved, saved.slots.activeSlot, Confirmed);
    ActiveControlOnlyMarks(After(d, w), saved.slots.activeSlot, true);
  }

  lemma RollbackShape(d: Disk, reason: RollbackReason)
    ensures var w, first := RollbackWrites(d, reason), d.(versions := RolledBackVersions(d.versions, reason));
      && |w| > 1 && w[0] == first
      && w[1] == first.(slots := RolledBackSlots(d.slots, reason)) && OnlyMarks(w[1], w[1..]) && KeepsJournals(d, w)
  {
    var first := d.(versions := RolledBackVersions(d.versions, reason));
    var saved := first.(slots := RolledBackSlots(d.slots, reason));
    var slot := d.slots.activeSlot;
    var w := [saved] + JournalWrites(saved, slot, RolledBack);
    var v := w + ControlWrites(After(first, w), slot, ControlUpdate(Some(false), false, false));
    assert OnlyMarks(saved, v) && KeepsJournals(d, v);
    var tail := ActiveControlWrites(After(first, v), saved.slots.activeSlot, true);
    ActiveControlOnlyMarks(After(first, v), saved.slots.activeSlot, true);
    assert RollbackWrites(d, reason)[1..] == v + tail;
  }

  /** The end of a rollback: both files name the confirmed version and slot, and nothing is pending. */
  lemma RollbackEnd(d: Disk, reason: RollbackReason)
    ensures var e := After(d, RollbackWrites(d, reason));
      && e.versions == RolledBackVersions(d.versions, reason) && e.slots == RolledBackSlots(d.slots, reason)
      && SameFlash(d, e)
  {
    RollbackShape(d, reason);
    var w := RollbackWrites(d, reason);
    assert w[|w| - 1] == w[1..][|w| - 2];
  }

  /** The end of a trial boot. */
  lemma TrialBootEnd(d: Disk)
    ensures var e := After(d, TrialBootWrites(d));
      && e.versions == (if d.versions.pendingCommit && d.versions.pending.Some? then Booted(d.versions) else d.versions)
      && e.slots == (if d.slots.pendingSlot.Some? then Activated(d.slots) else d.slots)
      && SameFlash(d, e)
      && forall s: Slot :: !Incomplete(d.Files(s).journal) ==> !Incomplete(e.Files(s).journal)
  {
    var w := if d.versions.pendingCommit then BootWrites(d) else [];
    var next := After(d, w);
    var v := ActivatePendingWrites(next);
    AfterBoth(d, w, v);
    assert TrialBootWrites(d) == w + v;
    if d.slots.pendingSlot.Some? {
      ActivateShape(next);
      assert After(next, v) == v[|v| - 1];
    } else {
      assert v == [];
    }
  }
}
