/**
 What an ECU keeps across power cycles (ecus/base/slot_manager.py and ecus/base/version_manager.py). Each
 persisted file is a field of `Disk`; each file write replaces one of them in a single atomic step.
 */
module EcuStorage {
  import opened Base
  import opened FlashMemory

  datatype Slot = SlotA | SlotB

  function Other(s: Slot): Slot {
    if s == SlotA then SlotB else SlotA
  }

  /** A normalized version number. */
  datatype Version = Version(major: nat, minor: nat, patch: nat)

  datatype RollbackReason = NoReason | ValidationFailed | IncompleteFlashJournal | BootAttemptLimitExceeded

  datatype Layout = Layout(baseAddress: nat, partitionSize: nat, pageSize: nat, sectorSize: nat)

  datatype ControlBlock = ControlBlock(bootable: bool, confirmed: bool, active: bool)

  /** The files in one slot's directory. */
  datatype SlotFiles = SlotFiles(
    flash: Bytes, layout: Option<Layout>, journal: Option<JournalState>, control: Option<ControlBlock>,
    image: Option<Bytes>)

  /** slot_state.json */
  datatype SlotState = SlotState(
    activeSlot: Slot, confirmedSlot: Slot, previousSlot: Slot, pendingSlot: Option<Slot>,
    pendingVersion: Option<Version>, bootAttempts: nat, maxBootAttempts: nat, rollbackReason: RollbackReason)

  /** version.json */
  datatype VersionState = VersionState(
    current: Version, confirmed: Version, pending: Option<Version>, activeSlot: Slot, confirmedSlot: Slot,
    pendingSlot: Option<Slot>, pendingCommit: bool, bootAttempts: nat, rollbackReason: RollbackReason)

  datatype Disk = Disk(a: SlotFiles, b: SlotFiles, slots: SlotState, versions: VersionState, download: Option<Bytes>) {
    function Files(s: Slot): SlotFiles {
      if s == SlotA then a else b
    }

    function WithFiles(s: Slot, f: SlotFiles): Disk {
      if s == SlotA then this.(a := f) else this.(b := f)
    }
  }

  /** Successive contents of the disk, one per write. */
  type Writes = seq<Disk>

  function After(d: Disk, w: Writes): Disk {
    if w == [] then d else w[|w| - 1]
  }

  lemma AfterBoth(d: Disk, w: Writes, v: Writes)
    ensures After(d, w + v) == After(After(d, w), v)
  {
  }

  /** The disk of one ECU; `trace` records what it held after each write. */
  class Storage {
    var disk: Disk
    ghost var trace: Writes

    constructor (disk: Disk)
      ensures this.disk == disk && trace == []
    {
      this.disk, trace := disk, [];
    }

    method Write(d: Disk)
      modifies this
      ensures disk == d && trace == old(trace) + [d]
    {
      disk, trace := d, trace + [d];
    }
  }

  // ----- slot files

  /** `_update_journal`: only a slot that has a flash layout gets a journal entry. */
  function JournalWrites(d: Disk, s: Slot, j: JournalState): Writes {
    if d.Files(s).layout.None? then [] else [d.WithFiles(s, d.Files(s).(journal := Some(j)))]
  }

  /** The fields of a control block that an update may set. */
  datatype ControlUpdate = ControlUpdate(bootable: Option<bool>, confirmed: bool, active: bool)

  function Updated(c: Option<ControlBlock>, u: ControlUpdate): ControlBlock {
    var bootable := if u.bootable.Some? then u.bootable.value else c.Some? && c.value.bootable;
    ControlBlock(bootable, u.confirmed, u.active)
  }

  function ControlWrites(d: Disk, s: Slot, u: ControlUpdate): Writes {
    var files := d.Files(s);
    if files.layout.None? then [] else [d.WithFiles(s, files.(control := Some(Updated(files.control, u))))]
  }

  function ActiveUpdate(s: Slot, active: Slot, confirmed: bool): ControlUpdate {
    ControlUpdate(if s == active then Some(true) else None, s == active && confirmed, s == active)
  }

  /** `_set_active_slot_control_blocks`: both slots, A first. */
  function ActiveControlWrites(d: Disk, active: Slot, confirmed: bool): Writes {
    var first := ControlWrites(d, SlotA, ActiveUpdate(SlotA, active, confirmed));
    first + ControlWrites(After(d, first), SlotB, ActiveUpdate(SlotB, active, confirmed))
  }

  // ----- the slot state

  function InactiveSlot(d: Disk): Slot {
    Other(d.slots.activeSlot)
  }

  function MarkedPending(s: SlotState, slot: Slot, version: Version): SlotState {
    s.(pendingSlot := Some(slot), pendingVersion := Some(version), bootAttempts := 0, rollbackReason := NoReason)
  }

  function MarkPendingWrites(d: Disk, slot: Slot, version: Version): Writes {
    var saved := d.(slots := MarkedPending(d.slots, slot, version));
    [saved] + ControlWrites(saved, slot, ControlUpdate(Some(true), false, false))
  }

  function Activated(s: SlotState): SlotState
    requires s.pendingSlot.Some?
  {
    s.(previousSlot := s.activeSlot, activeSlot := s.pendingSlot.value, bootAttempts := s.bootAttempts + 1)
  }

  function ActivatePendingWrites(d: Disk): Writes {
    if d.slots.pendingSlot.None? then []
    else
      var slot, saved := d.slots.pendingSlot.value, d.(slots := Activated(d.slots));
      var w := [saved] + JournalWrites(saved, slot, BootedPending);
      w + ActiveControlWrites(After(d, w), slot, false)
  }

  function Committed(s: SlotState): SlotState {
    s.(confirmedSlot := s.activeSlot, pendingSlot := None, pendingVersion := None, bootAttempts := 0,
       rollbackReason := NoReason)
  }

  function CommitPendingWrites(d: Disk): Writes {
    var saved := d.(slots := Committed(d.slots));
    var w := [saved] + JournalWrites(saved, saved.slots.activeSlot, Confirmed);
    w + ActiveControlWrites(After(d, w), saved.slots.activeSlot, true)
  }

  function RolledBackSlots(s: SlotState, reason: RollbackReason): SlotState {
    s.(previousSlot := s.activeSlot, activeSlot := s.confirmedSlot, pendingSlot := None, pendingVersion := None,
       bootAttempts := 0, rollbackReason := reason)
  }

  function RollbackPendingWrites(d: Disk, reason: RollbackReason): Writes {
    var slot, saved := d.slots.activeSlot, d.(slots := RolledBackSlots(d.slots, reason));
    var w := [saved] + JournalWrites(saved, slot, RolledBack);
    var v := w + ControlWrites(After(d, w), slot, ControlUpdate(Some(false), false, false));
    v + ActiveControlWrites(After(d, v), saved.slots.activeSlot, true)
  }

  predicate ShouldRollback(d: Disk) {
    d.slots.pendingSlot.Some? && d.slots.bootAttempts >= d.slots.maxBootAttempts
  }

  predicate Incomplete(j: Option<JournalState>) {
    j.Some? && j.value in {Initialized, Prepared, Erased, Programmed}
  }

  predicate JournalRequiresRecovery(d: Disk) {
    d.slots.pendingSlot.Some? && Incomplete(d.Files(d.slots.pendingSlot.value).journal)
  }

  class SlotManager {
    const storage: Storage

    constructor (storage: Storage)
      ensures this.storage == storage
    {
      this.storage := storage;
    }

    method UpdateJournal(s: Slot, j: JournalState)
      modifies storage
      ensures var w := JournalWrites(old(storage.disk), s, j);
        storage.trace == old(storage.trace) + w && storage.disk == After(old(storage.disk), w)
    {
      var files := storage.disk.Files(s);
      if files.layout.Some? {
        storage.Write(storage.disk.WithFiles(s, files.(journal := Some(j))));
      }
    }

    method UpdateControlBlock(s: Slot, u: ControlUpdate)
      modifies storage
      ensures var w := ControlWrites(old(storage.disk), s, u);
        storage.trace == old(storage.trace) + w && storage.disk == After(old(storage.disk), w)
    {
      var files := storage.disk.Files(s);
      if files.layout.Some? {
        storage.Write(storage.disk.WithFiles(s, files.(control := Some(Updated(files.control, u)))));
      }
    }

    method SetActiveSlotControlBlocks(active: Slot, confirmed: bool)
      modifies storage
      ensures var w := ActiveControlWrites(old(storage.disk), active, confirmed);
        storage.trace == old(storage.trace) + w && storage.disk == After(old(storage.disk), w)
    {
      UpdateControlBlock(SlotA, ActiveUpdate(SlotA, active, confirmed));
      UpdateControlBlock(SlotB, ActiveUpdate(SlotB, active, confirmed));
    }

    method MarkPending(slot: Slot, version: Version)
      modifies storage
      ensures var w := MarkPendingWrites(old(storage.disk), slot, version);
        storage.trace == old(storage.trace) + w && storage.disk == After(old(storage.disk), w)
    {
      var state := storage.disk.slots;
      storage.Write(storage.disk.(slots := state.(pendingSlot := Some(slot), pendingVersion := Some(version),
                                                  bootAttempts := 0, rollbackReason := NoReason)));
      UpdateControlBlock(slot, ControlUpdate(Some(true), false, false));
    }

    method ActivatePending() returns (slot: Option<Slot>)
      modifies storage
      ensures slot == old(storage.disk).slots.pendingSlot
      ensures var w := ActivatePendingWrites(old(storage.disk));
        storage.trace == old(storage.trace) + w && storage.disk == After(old(storage.disk), w)
    {
      var state := storage.disk.slots;
      slot := state.pendingSlot;
      if slot.None? {
        return;
      }
      state := state.(previousSlot := state.activeSlot);
      state := state.(activeSlot := slot.value);
      state := state.(bootAttempts := state.bootAttempts + 1);
      storage.Write(storage.disk.(slots := state));
      UpdateJournal(slot.value, BootedPending);
      SetActiveSlotControlBlocks(slot.value, false);
    }

    method CommitPending()
      modifies storage
      ensures var w := CommitPendingWrites(old(storage.disk));
        storage.trace == old(storage.trace) + w && storage.disk == After(old(storage.disk), w)
    {
      var state := storage.disk.slots;
      state := state.(confirmedSlot := state.activeSlot);
      state := state.(pendingSlot := None, pendingVersion := None, bootAttempts := 0, rollbackReason := NoReason);
      storage.Write(storage.disk.(slots := state));
      UpdateJournal(state.activeSlot, Confirmed);
      SetActiveSlotControlBlocks(state.activeSlot, true);
    }

    method RollbackPending(reason: RollbackReason)
      modifies storage
      ensures var w := RollbackPendingWrites(old(storage.disk), reason);
        storage.trace == old(storage.trace) + w && storage.disk == After(old(storage.disk), w)
    {
      var state := storage.disk.slots;
      var rolledBackSlot := state.activeSlot;
      state := state.(previousSlot := state.activeSlot);
      state := state.(activeSlot := state.confirmedSlot);
      state := state.(pendingSlot := None, pendingVersion := None, bootAttempts := 0, rollbackReason := reason);
      storage.Write(storage.disk.(slots := state));
      UpdateJournal(rolledBackSlot, RolledBack);
      UpdateControlBlock(rolledBackSlot, ControlUpdate(Some(false), false, false));
      SetActiveSlotControlBlocks(state.activeSlot, true);
    }

    method ShouldRollbackPending() returns (r: bool)
      ensures r == ShouldRollback(storage.disk)
    {
      var state := storage.disk.slots;
      if state.pendingSlot.None? {
        return false;
      }
      return state.bootAttempts >= state.maxBootAttempts;
    }

    method PendingJournalRequiresRecovery() returns (r: bool)
      ensures r == JournalRequiresRecovery(storage.disk)
    {
      var pending := storage.disk.slots.pendingSlot;
      if pending.None? {
        return false;
      }
      var journal := storage.disk.Files(pending.value).journal;
      if journal.None? {
        return false;
      }
      return journal.value in {Initialized, Prepared, Erased, Programmed};
    }
  }

  // ----- the version state

  function PendingSet(v: VersionState, version: Version, slot: Slot): VersionState {
    v.(pending := Some(version), pendingSlot := Some(slot), pendingCommit := true, bootAttempts := 0,
       rollbackReason := NoReason)
  }

  function ConfirmedAs(v: VersionState, version: Version): VersionState {
    var slot := if v.pendingSlot.Some? then v.pendingSlot.value else v.activeSlot;
    VersionState(version, version, None, slot, slot, None, false, 0, NoReason)
  }

  function Booted(v: VersionState): VersionState
    requires v.pending.Some?
  {
    v.(current := v.pending.value, activeSlot := if v.pendingSlot.Some? then v.pendingSlot.value else v.activeSlot,
       pendingCommit := true, bootAttempts := v.bootAttempts + 1)
  }

  function BootWrites(d: Disk): Writes {
    if d.versions.pending.None? then [] else [d.(versions := Booted(d.versions))]
  }

  function RolledBackVersions(v: VersionState, reason: RollbackReason): VersionState {
    VersionState(v.confirmed, v.confirmed, None, v.confirmedSlot, v.confirmedSlot, None, false, 0, reason)
  }

  class VersionManager {
    const storage: Storage

    constructor (storage: Storage)
      ensures this.storage == storage
    {
      this.storage := storage;
    }

    method Save(v: VersionState)
      modifies storage
      ensures storage.disk == old(storage.disk).(versions := v) && storage.trace == old(storage.trace) + [storage.disk]
    {
      storage.Write(storage.disk.(versions := v));
    }

    method SetPendingVersion(version: Version, slot: Slot)
      modifies storage
      ensures storage.disk == old(storage.disk).(versions := PendingSet(old(storage.disk).versions, version, slot))
      ensures storage.trace == old(storage.trace) + [storage.disk]
    {
      var data := storage.disk.versions.(pending := Some(version));
      data := data.(pendingSlot := Some(slot), pendingCommit := true);
      data := data.(bootAttempts := 0, rollbackReason := NoReason);
      Save(data);
    }

    method ConfirmVersion(version: Version)
      modifies storage
      ensures storage.disk == old(storage.disk).(versions := ConfirmedAs(old(storage.disk).versions, version))
      ensures storage.trace == old(storage.trace) + [storage.disk]
    {
      var data := storage.disk.versions.(current := version, confirmed := version, pending := None);
      if data.pendingSlot.Some? {
        data := data.(activeSlot := data.pendingSlot.value);
      }
      data := data.(confirmedSlot := data.activeSlot);
      data := data.(pendingSlot := None, pendingCommit := false, bootAttempts := 0, rollbackReason := NoReason);
      Save(data);
    }

    method BootPendingVersion() returns (booted: bool)
      modifies storage
      ensures booted == old(storage.disk).versions.pending.Some?
      ensures var w := BootWrites(old(storage.disk));
        storage.trace == old(storage.trace) + w && storage.disk == After(old(storage.disk), w)
    {
      var data := storage.disk.versions;
      if data.pending.None? {
        return false;
      }
      data := data.(current := data.pending.value);
      if data.pendingSlot.Some? {
        data := data.(activeSlot := data.pendingSlot.value);
      }
      data := data.(pendingCommit := true, bootAttempts := data.bootAttempts + 1);
      Save(data);
      return true;
    }

    method RollbackPendingVersion(reason: RollbackReason)
      modifies storage
      ensures storage.disk == old(storage.disk).(versions := RolledBackVersions(old(storage.disk).versions, reason))
      ensures storage.trace == old(storage.trace) + [storage.disk]
    {
      var data := storage.disk.versions;
      data := data.(current := data.confirmed, pending := None, pendingSlot := None);
      data := data.(activeSlot := data.confirmedSlot);
      data := data.(pendingCommit := false, bootAttempts := 0, rollbackReason := reason);
      Save(data);
    }
  }
}
