/**
 Installing a downloaded image into the inactive slot (ecus/base/installer.py), one persistent write at a time,
 and what a reboot makes of the disk wherever the power failed.
 */
module Installer {
  import opened Base
  import opened FlashMemory
  import opened EcuStorage
  import opened EcuBoot
  import opened UpdateLifecycle
  import FirmwareImage

  const LARGE_PAYLOAD := 1_000_000
  const LARGE_PAGE_SIZE := 65536

  datatype InstallError = DownloadMissing | BadImage(image: FirmwareImage.ImageError) | FlashFailed(flash: FlashError)
                        | ReadbackFailed | DigestMismatch

  /** Whole sectors, and at least one. */
  function PartitionSize(payloadSize: nat): nat {
    var rounded := (payloadSize + SECTOR_SIZE - 1) / SECTOR_SIZE * SECTOR_SIZE;
    if rounded < SECTOR_SIZE then SECTOR_SIZE else rounded
  }

  function PageSizeFor(payloadSize: nat): nat {
    if payloadSize > LARGE_PAYLOAD then LARGE_PAGE_SIZE else PAGE_SIZE
  }

  function ErasedBytes(n: nat): Bytes {
    seq(n, _ => ERASED_BYTE)
  }

  /** A partition that holds the first `done` bytes of a payload and is erased behind them. */
  function Flashed(payload: Bytes, done: nat, partition: nat): Bytes
    requires done <= |payload| <= partition
  {
    payload[..done] + ErasedBytes(partition - done)
  }

  // ----- crash safety: what each phase of the installation reboots to

  /** Only the inactive slot's files and the download differ from `start`. */
  predicate Preparing(start: Disk, d: Disk) {
    && d.slots == start.slots && d.versions == start.versions
    && d.Files(start.slots.activeSlot) == start.Files(start.slots.activeSlot)
  }

  /** Pending in slot_state.json, and perhaps in version.json, but the flash is not verified yet. */
  predicate Unverified(start: Disk, d: Disk, target: Version) {
    var slot := InactiveSlot(start);
    && d.slots == MarkedPending(start.slots, slot, target)
    && d.versions in {start.versions, PendingSet(start.versions, target, slot)}
    && Incomplete(d.Files(slot).journal)
    && d.Files(start.slots.activeSlot) == start.Files(start.slots.activeSlot)
  }

  /** Pending in both files, with a verified image in the slot. */
  predicate Ready(start: Disk, d: Disk, target: Version, payload: Bytes) {
    var slot := InactiveSlot(start);
    && d.slots == MarkedPending(start.slots, slot, target)
    && d.versions == PendingSet(start.versions, target, slot)
    && d.Files(slot).journal in {Some(Verified), Some(PendingActivation)} && payload <= d.Files(slot).flash
    && d.Files(start.slots.activeSlot) == start.Files(start.slots.activeSlot)
  }

  /** The old image runs: confirmed version, confirmed slot with its flash untouched, nothing pending. */
  predicate OldImageRuns(start: Disk, e: Disk) {
    && RunsConfirmed(e)
    && e.versions.confirmed == start.versions.confirmed && e.slots.confirmedSlot == start.slots.confirmedSlot
    && e.Files(start.slots.activeSlot).flash == start.Files(start.slots.activeSlot).flash
  }

  /**
   The new image runs from its slot, whose flash reads back the payload, and it had been verified. Unless no
   trial boot is allowed at all, version.json says so too.
   */
  predicate NewImageRuns(start: Disk, d: Disk, e: Disk, target: Version, payload: Bytes) {
    var slot := InactiveSlot(start);
    && e.slots.activeSlot == slot && payload <= e.Files(slot).flash
    && d.Files(slot).journal in {Some(Verified), Some(PendingActivation), Some(BootedPending)}
    && (start.slots.maxBootAttempts > 0 ==> OnTrial(e) && e.versions.current == target && e.versions.activeSlot == slot)
  }

  /** Power fails with the disk at `d`: the reboot runs either the old image or the complete new one. */
  predicate CrashSafe(start: Disk, d: Disk, target: Version, payload: Bytes) {
    var e := Rebooted(d);
    OldImageRuns(start, e) || NewImageRuns(start, d, e, target, payload)
  }

  lemma PreparingIsSafe(start: Disk, d: Disk, target: Version, payload: Bytes)
    requires RunsConfirmed(start) && Preparing(start, d)
    ensures CrashSafe(start, d, target, payload)
  {
    TrialBootEnd(d);
  }

  lemma UnverifiedIsSafe(start: Disk, d: Disk, target: Version, payload: Bytes)
    requires RunsConfirmed(start) && Unverified(start, d, target)
    ensures CrashSafe(start, d, target, payload)
  {
    RollbackEnd(d, IncompleteFlashJournal);
  }

  lemma ReadyIsSafe(start: Disk, d: Disk, target: Version, payload: Bytes)
    requires RunsConfirmed(start) && Ready(start, d, target, payload)
    ensures CrashSafe(start, d, target, payload)
  {
    if ShouldRollback(d) {
      RollbackEnd(d, BootAttemptLimitExceeded);
    } else {
      TrialBootEnd(d);
    }
  }

  lemma OldImageStays(start: Disk, d: Disk, target: Version, payload: Bytes)
    requires OldImageRuns(start, d)
    ensures CrashSafe(start, d, target, payload)
  {
    TrialBootEnd(d);
  }

  /** The writes of the reboot that ends an installation, when it rolls back at once. */
  lemma RollingBackIsSafe(start: Disk, d: Disk, target: Version, payload: Bytes, i: nat)
    requires RunsConfirmed(start) && Ready(start, d, target, payload) && start.slots.maxBootAttempts == 0
    requires i < |RollbackWrites(d, BootAttemptLimitExceeded)|
    ensures CrashSafe(start, RollbackWrites(d, BootAttemptLimitExceeded)[i], target, payload)
  {
    var w := RollbackWrites(d, BootAttemptLimitExceeded);
    RollbackShape(d, BootAttemptLimitExceeded);
    if i == 0 {
      TrialBootEnd(w[0]);
    } else {
      assert w[i] == w[1..][i - 1];
      assert OldImageRuns(start, w[i]);
      OldImageStays(start, w[i], target, payload);
    }
  }

  /** Booted in version.json, not yet in slot_state.json. */
  lemma HalfBootedIsSafe(start: Disk, d: Disk, target: Version, payload: Bytes)
    requires RunsConfirmed(start) && Ready(start, d, target, payload) && start.slots.maxBootAttempts > 0
    ensures CrashSafe(start, d.(versions := Booted(d.versions)), target, payload)
  {
    var half := d.(versions := Booted(d.versions));
    TrialBootEnd(half);
    assert RebootWrites(half) == TrialBootWrites(half);
    var e := Rebooted(half);
    assert NewImageRuns(start, half, e, target, payload);
  }

  /** Booted in both files: the next reboot boots it again or gives it up. */
  lemma TrialIsSafe(start: Disk, d: Disk, e: Disk, target: Version, payload: Bytes)
    requires RunsConfirmed(start) && Ready(start, d, target, payload) && start.slots.maxBootAttempts > 0
    requires e.slots == Activated(d.slots) && e.versions == Booted(d.versions) && SameFlash(d, e)
    requires e.Files(InactiveSlot(start)).journal in {Some(Verified), Some(PendingActivation), Some(BootedPending)}
    ensures CrashSafe(start, e, target, payload)
  {
    if ShouldRollback(e) {
      RollbackEnd(e, BootAttemptLimitExceeded);
    } else {
      TrialBootEnd(e);
    }
  }

  /** The writes of the reboot that ends an installation, when it boots the new image. */
  lemma BootingIsSafe(start: Disk, d: Disk, target: Version, payload: Bytes, i: nat)
    requires RunsConfirmed(start) && Ready(start, d, target, payload) && start.slots.maxBootAttempts > 0
    requires i < |TrialBootWrites(d)|
    ensures CrashSafe(start, TrialBootWrites(d)[i], target, payload)
  {
    var first := d.(versions := Booted(d.versions));
    var w := TrialBootWrites(d);
    assert w[0] == first && w[1..] == ActivatePendingWrites(first);
    if i == 0 {
      HalfBootedIsSafe(start, d, target, payload);
    } else {
      ActivateShape(first);
      ActivateJournal(first);
      assert w[i] == w[1..][i - 1];
      TrialIsSafe(start, d, w[i], target, payload);
    }
  }

  /** Activation either leaves the pending slot's journal or marks it as booted. */
  lemma ActivateJournal(d: Disk)
    requires d.slots.pendingSlot.Some?
    ensures var w, s := ActivatePendingWrites(d), d.slots.pendingSlot.value;
      forall i | 0 <= i < |w| :: w[i].Files(s).journal in {d.Files(s).journal, Some(BootedPending)}
  {
    var saved := d.(slots := Activated(d.slots));
    var w := [saved] + JournalWrites(saved, d.slots.pendingSlot.value, BootedPending);
    var next := After(d, w);
    var v := ActiveControlWrites(next, d.slots.pendingSlot.value, false);
    assert forall i, s: Slot | 0 <= i < |v| :: v[i].Files(s).journal == next.Files(s).journal;
  }

  lemma RebootingIsSafe(start: Disk, d: Disk, target: Version, payload: Bytes, i: nat)
    requires RunsConfirmed(start) && Ready(start, d, target, payload)
    requires i < |RebootWrites(d)|
    ensures CrashSafe(start, RebootWrites(d)[i], target, payload)
  {
    if start.slots.maxBootAttempts == 0 {
      RollingBackIsSafe(start, d, target, payload, i);
    } else {
      BootingIsSafe(start, d, target, payload, i);
    }
  }

  // ----- power loss while recovering

  /** On the way back to the old image: still pending with an incomplete journal, or already there. */
  predicate Recovering(start: Disk, c: Disk) {
    && c.versions.confirmed == start.versions.confirmed && c.versions.confirmedSlot == start.versions.confirmedSlot
    && c.slots.confirmedSlot == start.slots.confirmedSlot
    && c.Files(start.slots.activeSlot).flash == start.Files(start.slots.activeSlot).flash
    && if IsPending(c) then JournalRequiresRecovery(c) else RunsConfirmed(c)
  }

  lemma RecoveryEnds(start: Disk, c: Disk)
    requires RunsConfirmed(start) && Recovering(start, c)
    ensures OldImageRuns(start, Rebooted(c))
  {
    if IsPending(c) {
      RollbackEnd(c, IncompleteFlashJournal);
    } else {
      TrialBootEnd(c);
    }
  }

  /** A recovery that is cut is still a recovery. */
  lemma CutRecoveryRecovers(start: Disk, c: Disk, j: nat)
    requires RunsConfirmed(start) && Recovering(start, c) && j <= |RebootWrites(c)|
    ensures Recovering(start, Cut(c, RebootWrites(c), j))
  {
    var w := RebootWrites(c);
    if IsPending(c) {
      RollbackShape(c, IncompleteFlashJournal);
      assert j > 1 ==> Cut(c, w, j) == w[1..][j - 2];
    } else {
      assert w == [];
    }
  }

  ghost predicate CutAt(disks: seq<Disk>, cuts: seq<nat>, i: nat)
    requires i < |cuts| && i + 1 < |disks|
  {
    cuts[i] <= |RebootWrites(disks[i])| && disks[i + 1] == Cut(disks[i], RebootWrites(disks[i]), cuts[i])
  }

  /** A power loss before verification, and then one in each of any number of reboots. */
  ghost predicate AreCutReboots(disks: seq<Disk>, cuts: seq<nat>) {
    |disks| == |cuts| + 1 && forall i: nat {:trigger CutAt(disks, cuts, i)} | i < |cuts| :: CutAt(disks, cuts, i)
  }

  lemma FirstCutRecovers(start: Disk, d: Disk, target: Version)
    requires RunsConfirmed(start) && (Preparing(start, d) || Unverified(start, d, target))
    ensures Recovering(start, d)
  {
  }

  lemma {:induction false} CutsKeepRecovering(start: Disk, disks: seq<Disk>, cuts: seq<nat>, n: nat)
    requires RunsConfirmed(start) && AreCutReboots(disks, cuts) && n < |disks| && Recovering(start, disks[0])
    ensures Recovering(start, disks[n])
  {
    if n > 0 {
      CutsKeepRecovering(start, disks, cuts, n - 1);
      NextCutRecovers(start, disks, cuts, n - 1);
    }
  }

  lemma NextCutRecovers(start: Disk, disks: seq<Disk>, cuts: seq<nat>, i: nat)
    requires RunsConfirmed(start) && AreCutReboots(disks, cuts) && i < |cuts| && Recovering(start, disks[i])
    ensures Recovering(start, disks[i + 1])
  {
    assert CutAt(disks, cuts, i);
    CutRecoveryRecovers(start, disks[i], cuts[i]);
  }

  /**
   Before verification the installation survives any number of power losses: however often the recovering reboot is
   cut, the first one that completes runs the old image.
   */
  lemma RepeatedCutsAreSafe(start: Disk, disks: seq<Disk>, cuts: seq<nat>, n: nat, target: Version)
    requires RunsConfirmed(start) && AreCutReboots(disks, cuts) && n < |disks|
    requires Preparing(start, disks[0]) || Unverified(start, disks[0], target)
    ensures Recovering(start, disks[n]) && OldImageRuns(start, Rebooted(disks[n]))
  {
    FirstCutRecovers(start, disks[0], target);
    CutsKeepRecovering(start, disks, cuts, n);
    RecoveryEnds(start, disks[n]);
  }

  // ----- the journal of the installation

  /** The entries that a slot's journal gets, as the writes `w` follow on `d`. */
  function Entries(slot: Slot, d: Disk, w: Writes): seq<Option<JournalState>>
    decreases |w|
  {
    if w == [] then [] else Entry(slot, d, w[0]) + Entries(slot, w[0], w[1..])
  }

  /** The entry that one write makes, if any. */
  function Entry(slot: Slot, d: Disk, e: Disk): seq<Option<JournalState>> {
    if e.Files(slot).journal == d.Files(slot).journal then [] else [e.Files(slot).journal]
  }

  lemma {:induction false} EntriesAppend(slot: Slot, d: Disk, w: Writes, v: Writes)
    ensures Entries(slot, d, w + v) == Entries(slot, d, w) + Entries(slot, After(d, w), v)
    decreases |w|, 1
  {
    if w == [] {
      assert w + v == v;
    } else {
      EntriesAppendCons(slot, d, w[0], w[1..], v);
      assert w == [w[0]] + w[1..];
    }
  }

  lemma {:induction false} EntriesAppendCons(slot: Slot, d: Disk, first: Disk, rest: Writes, v: Writes)
    ensures Entries(slot, d, [first] + rest + v)
         == Entries(slot, d, [first] + rest) + Entries(slot, After(d, [first] + rest), v)
    decreases |rest|, 2
  {
    EntriesAppend(slot, first, rest, v);
    EntriesCons(slot, d, first, rest);
    EntriesCons(slot, d, first, rest + v);
    Associative([first], rest, v);
    Associative(Entry(slot, d, first), Entries(slot, first, rest), Entries(slot, After(first, rest), v));
    AfterCons(d, first, rest);
  }

  lemma AfterCons(d: Disk, first: Disk, rest: Writes)
    ensures After(d, [first] + rest) == After(first, rest)
  {
  }

  lemma Associative<T>(a: seq<T>, b: seq<T>, c: seq<T>)
    ensures a + b + c == a + (b + c)
  {
  }

  lemma EntriesCons(slot: Slot, d: Disk, first: Disk, rest: Writes)
    ensures Entries(slot, d, [first] + rest) == Entry(slot, d, first) + Entries(slot, first, rest)
  {
    assert ([first] + rest)[1..] == rest;
  }

  lemma {:induction false} NoEntries(slot: Slot, d: Disk, w: Writes)
    requires forall i | 0 <= i < |w| :: w[i].Files(slot).journal == d.Files(slot).journal
    ensures Entries(slot, d, w) == []
    decreases |w|
  {
    if w != [] {
      NoEntries(slot, w[0], w[1..]);
    }
  }

  /** From the disk `d` with the writes `before` on, the journal got these entries; the disk is `e` now. */
  ghost predicate Logged(slot: Slot, before: Writes, d: Disk, after: Writes, e: Disk,
                         entries: seq<Option<JournalState>>) {
    before <= after && After(d, after[|before|..]) == e && Entries(slot, d, after[|before|..]) == entries
  }

  lemma LoggedNothing(slot: Slot, before: Writes, d: Disk)
    ensures Logged(slot, before, d, before, d, [])
  {
  }

  lemma LoggedOne(slot: Slot, before: Writes, d: Disk, e: Disk)
    ensures Logged(slot, before, d, before + [e], e, Entry(slot, d, e))
  {
    assert (before + [e])[|before|..] == [e];
  }

  lemma LoggedMore(slot: Slot, before: Writes, d: Disk, middle: Writes, e: Disk, after: Writes, f: Disk,
                   first: seq<Option<JournalState>>, second: seq<Option<JournalState>>)
    requires Logged(slot, before, d, middle, e, first) && Logged(slot, middle, e, after, f, second)
    ensures Logged(slot, before, d, after, f, first + second)
  {
    var w, v := middle[|before|..], after[|middle|..];
    assert after[|before|..] == w + v;
    EntriesAppend(slot, d, w, v);
    AfterBoth(d, w, v);
  }

  // ----- the installation, write by write

  /** Everything written since `before` differs from `start` only in the inactive slot and the download. */
  ghost predicate OnlyPrepares(start: Disk, before: Writes, after: Writes) {
    before <= after && forall i | |before| <= i < |after| :: Preparing(start, after[i])
  }

  /** Everything written since `before` is safe to lose power at. */
  ghost predicate OnlySafe(start: Disk, before: Writes, after: Writes, target: Version, payload: Bytes) {
    before <= after && forall i | |before| <= i < |after| :: CrashSafe(start, after[i], target, payload)
  }

  /** Writes one file of the inactive slot. */
  method WriteSlotFile(storage: Storage, slot: Slot, files: SlotFiles, ghost start: Disk, ghost before: Writes)
    requires slot == InactiveSlot(start) && Preparing(start, storage.disk) && OnlyPrepares(start, before, storage.trace)
    modifies storage
    ensures storage.disk == old(storage.disk).WithFiles(slot, files)
    ensures Preparing(start, storage.disk) && OnlyPrepares(start, before, storage.trace)
    ensures Logged(slot, old(storage.trace), old(storage.disk), storage.trace, storage.disk,
                   if files.journal == old(storage.disk).Files(slot).journal then [] else [files.journal])
  {
    LoggedOne(slot, storage.trace, storage.disk, storage.disk.WithFiles(slot, files));
    storage.Write(storage.disk.WithFiles(slot, files));
  }

  /** A journal entry, unless it is there already. */
  function NewEntry(files: SlotFiles, state: JournalState): seq<Option<JournalState>> {
    if files.journal == Some(state) then [] else [Some(state)]
  }

  /** Writes the slot's flash file, and then its journal. */
  method StoreFlash(storage: Storage, slot: Slot, content: Bytes, state: JournalState, ghost start: Disk,
                    ghost before: Writes)
    requires slot == InactiveSlot(start) && Preparing(start, storage.disk) && OnlyPrepares(start, before, storage.trace)
    modifies storage
    ensures var files := old(storage.disk).Files(slot).(flash := content, journal := Some(state));
      storage.disk.Files(slot) == files && storage.disk.download == old(storage.disk).download
    ensures Preparing(start, storage.disk) && OnlyPrepares(start, before, storage.trace)
    ensures Logged(slot, old(storage.trace), old(storage.disk), storage.trace, storage.disk,
                   NewEntry(old(storage.disk).Files(slot), state))
  {
    ghost var w, d := storage.trace, storage.disk;
    WriteSlotFile(storage, slot, storage.disk.Files(slot).(flash := content), start, before);
    ghost var v, e := storage.trace, storage.disk;
    WriteSlotFile(storage, slot, storage.disk.Files(slot).(journal := Some(state)), start, before);
    LoggedMore(slot, w, d, v, e, storage.trace, storage.disk, [], NewEntry(d.Files(slot), state));
  }

  lemma ErasingErased(size: nat, end: nat)
    ensures EraseCells(ErasedBytes(size), 0, end, SECTOR_SIZE) == ErasedBytes(size)
  {
  }

  lemma ErasedTakesAll(chunk: Bytes)
    ensures AllClear(ErasedBytes(|chunk|), chunk)
  {
    forall i | 0 <= i < |chunk| ensures OnlyClears(ErasedBytes(|chunk|)[i], chunk[i]) {
      ErasedTakesAnyByte(chunk[i]);
    }
    AllClearMeansEach(ErasedBytes(|chunk|), chunk);
  }

  lemma StillErased(payload: Bytes, done: nat, length: nat, partition: nat)
    requires done + length <= |payload| <= partition
    ensures Flashed(payload, done, partition)[done..done + length] == ErasedBytes(length)
  {
  }

  lemma FlashedGrows(payload: Bytes, done: nat, length: nat, partition: nat)
    requires done + length <= |payload| <= partition
    ensures Overwrite(Flashed(payload, done, partition), done, payload[done..done + length])
         == Flashed(payload, done + length, partition)
  {
  }

  /** Programming the next page of a payload behind the ones already there. */
  lemma ProgramNextPage(payload: Bytes, done: nat, chunk: Bytes, partition: nat, page: nat)
    requires page > 0 && done + |chunk| <= |payload| <= partition && chunk == payload[done..done + |chunk|]
    ensures ProgramPages(Flashed(payload, done, partition), done, chunk, page)
         == (Flashed(payload, done + |chunk|, partition), true)
  {
    var cells := Flashed(payload, done, partition);
    StillErased(payload, done, |chunk|, partition);
    ErasedTakesAll(chunk);
    ProgrammingSucceeds(cells, done, chunk, page);
    FlashedGrows(payload, done, |chunk|, partition);
  }

  lemma PartitionFits(n: nat)
    ensures n <= PartitionSize(n) && PartitionSize(n) % SECTOR_SIZE == 0 && PartitionSize(n) > 0
    ensures PartitionSize(n) < n + SECTOR_SIZE || PartitionSize(n) == SECTOR_SIZE
  {
  }

  /** The flash object of an installation: the partition of its payload, in the inactive slot. */
  predicate FlashFor(flash: FlashMemoryEmulator, payload: Bytes) {
    && flash.partitionSize == PartitionSize(|payload|) && flash.pageSize == PageSizeFor(|payload|)
    && flash.sectorSize == SECTOR_SIZE
  }

  function LayoutOf(flash: FlashMemoryEmulator): Layout {
    Layout(flash.baseAddress, flash.partitionSize, flash.pageSize, flash.sectorSize)
  }

  /** The files of a new partition: its content and layout, a first journal entry and control block, and "prepared". */
  method LayOut(storage: Storage, slot: Slot, content: Bytes, layout: Layout, ghost start: Disk, ghost before: Writes)
    requires slot == InactiveSlot(start) && Preparing(start, storage.disk) && OnlyPrepares(start, before, storage.trace)
    modifies storage
    ensures Preparing(start, storage.disk) && OnlyPrepares(start, before, storage.trace)
    ensures storage.disk.download == old(storage.disk).download
    ensures var f, g := old(storage.disk).Files(slot), storage.disk.Files(slot);
      g == SlotFiles(content, Some(layout), Some(Prepared), Some(ControlBlock(false, false, false)), f.image)
    ensures Logged(slot, old(storage.trace), old(storage.disk), storage.trace, storage.disk,
                   NewEntry(old(storage.disk).Files(slot), Initialized) + [Some(Prepared)])
  {
    ghost var w, d := storage.trace, storage.disk;
    WriteSlotFile(storage, slot, storage.disk.Files(slot).(flash := content), start, before);
    ghost var v, e := storage.trace, storage.disk;
    WriteSlotFile(storage, slot, storage.disk.Files(slot).(layout := Some(layout)), start, before);
    LoggedMore(slot, w, d, v, e, storage.trace, storage.disk, [], []);
    v, e := storage.trace, storage.disk;
    WriteSlotFile(storage, slot, storage.disk.Files(slot).(journal := Some(Initialized)), start, before);
    LoggedMore(slot, w, d, v, e, storage.trace, storage.disk, [], NewEntry(d.Files(slot), Initialized));
    v, e := storage.trace, storage.disk;
    WriteSlotFile(storage, slot, storage.disk.Files(slot).(control := Some(ControlBlock(false, false, false))),
                  start, before);
    LoggedMore(slot, w, d, v, e, storage.trace, storage.disk, NewEntry(d.Files(slot), Initialized), []);
    v, e := storage.trace, storage.disk;
    WriteSlotFile(storage, slot, storage.disk.Files(slot).(journal := Some(Prepared)), start, before);
    LoggedMore(slot, w, d, v, e, storage.trace, storage.disk, NewEntry(d.Files(slot), Initialized), [Some(Prepared)]);
  }

  /** Initializing, preparing and erasing the partition. */
  method EraseSlot(storage: Storage, slot: Slot, flash: FlashMemoryEmulator, payload: Bytes, ghost start: Disk)
    returns (r: Result<(), FlashError>)
    requires FlashFor(flash, payload) && slot == InactiveSlot(start) && Preparing(start, storage.disk)
    modifies storage, flash
    ensures r == Ok(()) && Preparing(start, storage.disk) && OnlyPrepares(start, old(storage.trace), storage.trace)
    ensures fresh(flash.cells) && Programming(storage.disk, slot, flash, payload, 0)
    ensures storage.disk.download == old(storage.disk).download
    ensures Logged(slot, old(storage.trace), old(storage.disk), storage.trace, storage.disk,
                   NewEntry(old(storage.disk).Files(slot), Initialized) + [Some(Prepared), Some(Erased)])
  {
    ghost var before, d := storage.trace, storage.disk;
    flash.Initialize();
    assert flash.cells[..] == ErasedBytes(flash.partitionSize);
    LayOut(storage, slot, flash.cells[..], LayoutOf(flash), start, before);
    ghost var w, e := storage.trace, storage.disk;
    r := flash.EraseRegion(flash.baseAddress, |payload|);
    ErasingErased(flash.partitionSize, |payload|);
    if r.Ok? {
      StoreFlash(storage, slot, flash.cells[..], Erased, start, before);
      LoggedMore(slot, before, d, w, e, storage.trace, storage.disk,
                 NewEntry(d.Files(slot), Initialized) + [Some(Prepared)], [Some(Erased)]);
      assert NewEntry(d.Files(slot), Initialized) + [Some(Prepared)] + [Some(Erased)]
          == NewEntry(d.Files(slot), Initialized) + [Some(Prepared), Some(Erased)];
    }
    PartitionFits(|payload|);
    assert Flashed(payload, 0, flash.partitionSize) == ErasedBytes(flash.partitionSize);
  }

  /** The slot's flash file is the flash object's content, with `done` bytes of the payload in it. */
  ghost predicate Programming(d: Disk, slot: Slot, flash: FlashMemoryEmulator, payload: Bytes, done: nat)
    reads flash, flash.cells
  {
    && FlashFor(flash, payload) && flash.Valid() && done <= |payload| <= flash.partitionSize
    && flash.cells[..] == Flashed(payload, done, flash.partitionSize)
    && d.Files(slot).flash == flash.cells[..] && d.Files(slot).layout == Some(LayoutOf(flash))
    && d.Files(slot).journal == Some(if done == 0 then Erased else Programmed)
  }

  method ProgramFlash(flash: FlashMemoryEmulator, payload: Bytes, index: nat, end: nat)
    returns (r: Result<(), FlashError>)
    requires flash.Valid() && index < end <= |payload| <= flash.partitionSize
    requires flash.cells[..] == Flashed(payload, index, flash.partitionSize)
    modifies flash`journal, flash.cells
    ensures r == Ok(()) && flash.Valid() && flash.cells == old(flash.cells)
    ensures flash.cells[..] == Flashed(payload, end, flash.partitionSize)
  {
    var chunk := payload[index..end];
    ProgramNextPage(payload, index, chunk, flash.partitionSize, flash.pageSize);
    r := flash.Program(flash.baseAddress + index, chunk);
  }

  /** One turn of the programming loop: a page is programmed without error, then the files are written. */
  method ProgramPageOf(storage: Storage, slot: Slot, flash: FlashMemoryEmulator, payload: Bytes, index: nat, end: nat,
                       ghost start: Disk, ghost before: Writes)
    returns (r: Result<(), FlashError>)
    requires Programming(storage.disk, slot, flash, payload, index) && index < end <= |payload|
    requires slot == InactiveSlot(start) && Preparing(start, storage.disk) && OnlyPrepares(start, before, storage.trace)
    modifies storage, flash`journal, flash.cells
    ensures r == Ok(()) && Programming(storage.disk, slot, flash, payload, end)
    ensures Preparing(start, storage.disk) && OnlyPrepares(start, before, storage.trace)
    ensures storage.disk.download == old(storage.disk).download
    ensures Logged(slot, old(storage.trace), old(storage.disk), storage.trace, storage.disk,
                   if index == 0 then [Some(Programmed)] else [])
  {
    r := ProgramFlash(flash, payload, index, end);
    if r.Ok? {
      StoreFlash(storage, slot, flash.cells[..], Programmed, start, before);
    }
  }

  /** The programming loop never raises and puts the whole payload in place. */
  method ProgramSlot(storage: Storage, slot: Slot, flash: FlashMemoryEmulator, payload: Bytes, ghost start: Disk)
    returns (r: Result<(), FlashError>)
    requires Programming(storage.disk, slot, flash, payload, 0)
    requires slot == InactiveSlot(start) && Preparing(start, storage.disk)
    modifies storage, flash`journal, flash.cells
    ensures r == Ok(()) && Programming(storage.disk, slot, flash, payload, |payload|)
    ensures Preparing(start, storage.disk) && OnlyPrepares(start, old(storage.trace), storage.trace)
    ensures storage.disk.download == old(storage.disk).download
    ensures Logged(slot, old(storage.trace), old(storage.disk), storage.trace, storage.disk,
                   if payload == [] then [] else [Some(Programmed)])
  {
    ghost var before, d := storage.trace, storage.disk;
    LoggedNothing(slot, before, d);
    var index := 0;
    while index < |payload|
      invariant index <= |payload| && Programming(storage.disk, slot, flash, payload, index)
      invariant Preparing(start, storage.disk) && OnlyPrepares(start, before, storage.trace)
      invariant storage.disk.download == old(storage.disk).download
      invariant Logged(slot, before, d, storage.trace, storage.disk, if index == 0 then [] else [Some(Programmed)])
    {
      ghost var w, e := storage.trace, storage.disk;
      var end := if index + flash.pageSize < |payload| then index + flash.pageSize else |payload|;
      r := ProgramPageOf(storage, slot, flash, payload, index, end, start, before);
      if r.Err? {
        return;
      }
      LoggedMore(slot, before, d, w, e, storage.trace, storage.disk, if index == 0 then [] else [Some(Programmed)],
                 if index == 0 then [Some(Programmed)] else []);
      index := end;
    }
    return Ok(());
  }

  /** Moving the download into the slot, and the control block of the staged image. */
  method StageFirmware(storage: Storage, slot: Slot, ghost start: Disk)
    requires slot == InactiveSlot(start) && Preparing(start, storage.disk)
    modifies storage
    ensures Preparing(start, storage.disk) && OnlyPrepares(start, old(storage.trace), storage.trace)
    ensures storage.disk.download == None
    ensures var f, g := old(storage.disk).Files(slot), storage.disk.Files(slot);
      g == f.(image := old(storage.disk).download, control := Some(ControlBlock(true, false, false)))
    ensures Logged(slot, old(storage.trace), old(storage.disk), storage.trace, storage.disk, [])
  {
    ghost var before, d := storage.trace, storage.disk;
    LoggedNothing(slot, before, d);
    if storage.disk.Files(slot).image.Some? {
      WriteSlotFile(storage, slot, storage.disk.Files(slot).(image := None), start, before);
    }
    ghost var w, e := storage.trace, storage.disk;
    var moved := storage.disk.Files(slot).(image := storage.disk.download);
    storage.Write(storage.disk.WithFiles(slot, moved).(download := None));
    LoggedOne(slot, w, e, storage.disk);
    LoggedMore(slot, before, d, w, e, storage.trace, storage.disk, [], []);
    w, e := storage.trace, storage.disk;
    WriteSlotFile(storage, slot, storage.disk.Files(slot).(control := Some(ControlBlock(true, false, false))), start,
                  before);
    LoggedMore(slot, before, d, w, e, storage.trace, storage.disk, [], []);
  }

  lemma PreparesAreSafe(start: Disk, before: Writes, after: Writes, target: Version, payload: Bytes)
    requires RunsConfirmed(start) && OnlyPrepares(start, before, after)
    ensures OnlySafe(start, before, after, target, payload)
  {
    forall i | |before| <= i < |after| ensures CrashSafe(start, after[i], target, payload) {
      PreparingIsSafe(start, after[i], target, payload);
    }
  }

  /** The only change to the slot is that, having a flash layout, it is marked as bootable. */
  predicate MarkedBootable(d: Disk, e: Disk, slot: Slot) {
    var f, g := d.Files(slot), e.Files(slot);
    && g.(control := None) == f.(control := None) && e.download == d.download
    && (f.layout.Some? ==> g.control == Some(ControlBlock(true, false, false)))
  }

  lemma MarkingIsSafe(start: Disk, d: Disk, target: Version, payload: Bytes)
    requires RunsConfirmed(start) && Preparing(start, d) && Incomplete(d.Files(InactiveSlot(start)).journal)
    ensures var w := MarkPendingWrites(d, InactiveSlot(start), target);
      && Unverified(start, After(d, w), target) && After(d, w).versions == start.versions
      && MarkedBootable(d, After(d, w), InactiveSlot(start))
      && forall i | 0 <= i < |w| :: CrashSafe(start, w[i], target, payload)
  {
    var w := MarkPendingWrites(d, InactiveSlot(start), target);
    forall i | 0 <= i < |w| ensures CrashSafe(start, w[i], target, payload) {
      assert Unverified(start, w[i], target);
      UnverifiedIsSafe(start, w[i], target, payload);
    }
  }

  lemma MarkingIsLogged(slot: Slot, before: Writes, d: Disk, target: Version)
    ensures var w := MarkPendingWrites(d, slot, target); Logged(slot, before, d, before + w, After(d, w), [])
  {
    var w := MarkPendingWrites(d, slot, target);
    assert (before + w)[|before|..] == w;
    assert forall i | 0 <= i < |w| :: w[i].Files(slot).journal == d.Files(slot).journal;
    NoEntries(slot, d, w);
  }

  /** Marking the slot pending in slot_state.json and then in version.json. */
  method MarkBoth(storage: Storage, slots: SlotManager, versions: VersionManager, target: Version, ghost start: Disk,
                  ghost payload: Bytes)
    requires slots.storage == storage && versions.storage == storage && RunsConfirmed(start)
    requires Preparing(start, storage.disk) && Incomplete(storage.disk.Files(InactiveSlot(start)).journal)
    modifies storage
    ensures Unverified(start, storage.disk, target)
    ensures MarkedBootable(old(storage.disk), storage.disk, InactiveSlot(start))
    ensures storage.disk.versions == PendingSet(start.versions, target, InactiveSlot(start))
    ensures OnlySafe(start, old(storage.trace), storage.trace, target, payload)
    ensures Logged(InactiveSlot(start), old(storage.trace), old(storage.disk), storage.trace, storage.disk, [])
  {
    ghost var before, d := storage.trace, storage.disk;
    MarkingIsSafe(start, storage.disk, target, payload);
    var slot := Other(storage.disk.slots.activeSlot);
    slots.MarkPending(slot, target);
    MarkingIsLogged(slot, before, d, target);
    ghost var w, e := storage.trace, storage.disk;
    versions.SetPendingVersion(target, slot);
    LoggedOne(slot, w, e, storage.disk);
    LoggedMore(slot, before, d, w, e, storage.trace, storage.disk, [], []);
    UnverifiedIsSafe(start, storage.disk, target, payload);
  }

  /** Only the slot's journal has moved on. */
  predicate OnlyJournaled(d: Disk, e: Disk, slot: Slot) {
    e.Files(slot) == d.Files(slot).(journal := Some(PendingActivation)) && e.download == d.download
  }

  /** The slot has a layout and is marked as bootable, but neither confirmed nor active. */
  predicate HasMarks(f: SlotFiles) {
    f.layout.Some? && f.control == Some(ControlBlock(true, false, false))
  }

  /** The two journal entries that make the image bootable. */
  method MarkVerified(storage: Storage, ghost payload: Bytes, ghost target: Version, ghost start: Disk)
    requires RunsConfirmed(start) && Unverified(start, storage.disk, target)
    requires storage.disk.versions == PendingSet(start.versions, target, InactiveSlot(start))
    requires payload <= storage.disk.Files(InactiveSlot(start)).flash
    requires HasMarks(storage.disk.Files(InactiveSlot(start)))
    modifies storage
    ensures Staged(start, storage.disk, target, payload) && Ready(start, storage.disk, target, payload)
    ensures OnlyJournaled(old(storage.disk), storage.disk, InactiveSlot(start))
    ensures OnlySafe(start, old(storage.trace), storage.trace, target, payload)
    ensures Logged(InactiveSlot(start), old(storage.trace), old(storage.disk), storage.trace, storage.disk,
                   [Some(Verified), Some(PendingActivation)])
  {
    ghost var before, d := storage.trace, storage.disk;
    var slot := storage.disk.versions.pendingSlot.value;
    storage.Write(storage.disk.WithFiles(slot, storage.disk.Files(slot).(journal := Some(Verified))));
    LoggedOne(slot, before, d, storage.disk);
    ghost var w, e := storage.trace, storage.disk;
    ReadyIsSafe(start, storage.disk, target, payload);
    storage.Write(storage.disk.WithFiles(slot, storage.disk.Files(slot).(journal := Some(PendingActivation))));
    LoggedOne(slot, w, e, storage.disk);
    LoggedMore(slot, before, d, w, e, storage.trace, storage.disk, [Some(Verified)], [Some(PendingActivation)]);
    ReadyIsSafe(start, storage.disk, target, payload);
  }

  /** Reading the flash back, and the two journal entries that make the image bootable. */
  method VerifySlot(storage: Storage, flash: FlashMemoryEmulator, env: FirmwareImage.Primitives, digest: Bytes,
                    payload: Bytes, target: Version, ghost start: Disk)
    returns (r: Result<(), InstallError>)
    requires RunsConfirmed(start) && Unverified(start, storage.disk, target)
    requires storage.disk.versions == PendingSet(start.versions, target, InactiveSlot(start))
    requires FlashFor(flash, payload) && flash.Valid() && |payload| <= flash.partitionSize
    requires flash.cells[..] == storage.disk.Files(InactiveSlot(start)).flash && payload <= flash.cells[..]
    requires digest == env.sha256(payload)
    requires HasMarks(storage.disk.Files(InactiveSlot(start)))
    modifies storage
    ensures r == Ok(()) && Staged(start, storage.disk, target, payload) && Ready(start, storage.disk, target, payload)
    ensures OnlyJournaled(old(storage.disk), storage.disk, InactiveSlot(start))
    ensures OnlySafe(start, old(storage.trace), storage.trace, target, payload)
    ensures Logged(InactiveSlot(start), old(storage.trace), old(storage.disk), storage.trace, storage.disk,
                   [Some(Verified), Some(PendingActivation)])
  {
    var readBack := flash.Read(flash.baseAddress, |payload|);
    match readBack
    case Err(e) => return Err(FlashFailed(e));
    case Ok(content) =>
      if content != payload {
        return Err(ReadbackFailed);
      }
      if env.sha256(content) != digest {
        return Err(DigestMismatch);
      }
      MarkVerified(storage, payload, target, start);
      return Ok(());
  }

  /** Behind a slot that holds the whole payload: marking it in both files, and verifying it. */
  method MarkAndVerify(storage: Storage, slots: SlotManager, versions: VersionManager, flash: FlashMemoryEmulator,
                       env: FirmwareImage.Primitives, digest: Bytes, payload: Bytes, target: Version,
                       ghost start: Disk)
    returns (r: Result<(), InstallError>)
    requires slots.storage == storage && versions.storage == storage && RunsConfirmed(start)
    requires Preparing(start, storage.disk) && Incomplete(storage.disk.Files(InactiveSlot(start)).journal)
    requires FlashFor(flash, payload) && flash.Valid() && |payload| <= flash.partitionSize
    requires flash.cells[..] == storage.disk.Files(InactiveSlot(start)).flash && payload <= flash.cells[..]
    requires digest == env.sha256(payload) && HasMarks(storage.disk.Files(InactiveSlot(start)))
    modifies storage
    ensures r == Ok(()) && Staged(start, storage.disk, target, payload) && Ready(start, storage.disk, target, payload)
    ensures OnlyJournaled(old(storage.disk), storage.disk, InactiveSlot(start))
    ensures OnlySafe(start, old(storage.trace), storage.trace, target, payload)
    ensures Logged(InactiveSlot(start), old(storage.trace), old(storage.disk), storage.trace, storage.disk,
                   [Some(Verified), Some(PendingActivation)])
  {
    ghost var before, d, slot := storage.trace, storage.disk, InactiveSlot(start);
    MarkBoth(storage, slots, versions, target, start, payload);
    ghost var w, e := storage.trace, storage.disk;
    r := VerifySlot(storage, flash, env, digest, payload, target, start);
    LoggedMore(slot, before, d, w, e, storage.trace, storage.disk, [], [Some(Verified), Some(PendingActivation)]);
  }

  lemma RebootsAreSafe(start: Disk, d: Disk, before: Writes, after: Writes, target: Version, payload: Bytes)
    requires RunsConfirmed(start) && Ready(start, d, target, payload) && OnlySafe(start, before, after, target, payload)
    ensures OnlySafe(start, before, after + RebootWrites(d), target, payload)
  {
    forall i | 0 <= i < |RebootWrites(d)| ensures CrashSafe(start, RebootWrites(d)[i], target, payload) {
      RebootingIsSafe(start, d, target, payload, i);
    }
  }

  /** What the journal says while a slot is filled: one entry for each phase. */
  function Filling(files: SlotFiles, payload: Bytes): seq<Option<JournalState>> {
    NewEntry(files, Initialized) + [Some(Prepared), Some(Erased)] + if payload == [] then [] else [Some(Programmed)]
  }

  /** The inactive slot's part of the installation: erase, program and stage. */
  method FillSlot(storage: Storage, slot: Slot, flash: FlashMemoryEmulator, payload: Bytes, ghost start: Disk)
    returns (r: Result<(), FlashError>)
    requires FlashFor(flash, payload) && slot == InactiveSlot(start) && Preparing(start, storage.disk)
    modifies storage, flash
    ensures r == Ok(()) && Programming(storage.disk, slot, flash, payload, |payload|) && fresh(flash.cells)
    ensures Preparing(start, storage.disk) && OnlyPrepares(start, old(storage.trace), storage.trace)
    ensures storage.disk.Files(slot).image == old(storage.disk).download && storage.disk.download == None
    ensures HasMarks(storage.disk.Files(slot))
    ensures Logged(slot, old(storage.trace), old(storage.disk), storage.trace, storage.disk,
                   Filling(old(storage.disk).Files(slot), payload))
  {
    ghost var before, d := storage.trace, storage.disk;
    ghost var first := NewEntry(d.Files(slot), Initialized) + [Some(Prepared), Some(Erased)];
    ghost var second := if payload == [] then [] else [Some(Programmed)];
    r := EraseSlot(storage, slot, flash, payload, start);
    if r.Err? {
      return;
    }
    ghost var w, e := storage.trace, storage.disk;
    r := ProgramSlot(storage, slot, flash, payload, start);
    if r.Err? {
      return;
    }
    LoggedMore(slot, before, d, w, e, storage.trace, storage.disk, first, second);
    w, e := storage.trace, storage.disk;
    StageFirmware(storage, slot, start);
    LoggedMore(slot, before, d, w, e, storage.trace, storage.disk, first + second, []);
  }

  lemma WholePayloadReadsBack(payload: Bytes)
    ensures |payload| <= PartitionSize(|payload|) && payload <= Flashed(payload, |payload|, PartitionSize(|payload|))
  {
    PartitionFits(|payload|);
    assert payload[..|payload|] == payload;
  }

  /** From an extracted payload to the disk that is ready to reboot. */
  method InstallPayload(storage: Storage, slots: SlotManager, versions: VersionManager, env: FirmwareImage.Primitives,
                        baseAddress: nat, digest: Bytes, payload: Bytes, target: Version)
    returns (r: Result<(), InstallError>)
    requires slots.storage == storage && versions.storage == storage && RunsConfirmed(storage.disk)
    requires digest == env.sha256(payload)
    modifies storage
    ensures r == Ok(())
    ensures var start, d := old(storage.disk), storage.disk;
      && Staged(start, d, target, payload) && Ready(start, d, target, payload)
      && OnlySafe(start, old(storage.trace), storage.trace, target, payload)
      && Filled(start, d, baseAddress, payload)
    ensures var start := old(storage.disk);
      Logged(InactiveSlot(start), old(storage.trace), start, storage.trace, storage.disk,
             Filling(start.Files(InactiveSlot(start)), payload) + [Some(Verified), Some(PendingActivation)])
  {
    ghost var start, before := storage.disk, storage.trace;
    var slot := Other(storage.disk.slots.activeSlot);
    var files := storage.disk.Files(slot);
    var flash := new FlashMemoryEmulator(baseAddress, PartitionSize(|payload|), PageSizeFor(|payload|), SECTOR_SIZE,
                                         files.flash, files.journal);
    var filled := FillSlot(storage, slot, flash, payload, start);
    match filled
    case Err(e) => return Err(FlashFailed(e));
    case Ok(_) =>
      WholePayloadReadsBack(payload);
      PreparesAreSafe(start, before, storage.trace, target, payload);
      ghost var w, e := storage.trace, storage.disk;
      r := MarkAndVerify(storage, slots, versions, flash, env, digest, payload, target, start);
      LoggedMore(slot, before, start, w, e, storage.trace, storage.disk, Filling(files, payload),
                 [Some(Verified), Some(PendingActivation)]);
  }

  /**
   The whole installation on an ECU that runs its confirmed image. A missing download or a malformed image is
   refused before anything is written. Otherwise nothing raises, the slot holds the payload and erased bytes
   behind it, the final disk is that of a completed staging after a reboot, and wherever the power fails on
   the way the next reboot runs the old image or the complete, verified new one. The journal records every phase.
   */
  method Install(storage: Storage, slots: SlotManager, versions: VersionManager, state: EcuState,
                 env: FirmwareImage.Primitives, target: Version)
    returns (r: Result<(), InstallError>, ghost staged: Disk)
    requires slots.storage == storage && versions.storage == storage && RunsConfirmed(storage.disk)
    modifies storage, state
    ensures old(storage.disk).download.None? ==> r == Err(DownloadMissing)
    ensures old(storage.disk).download.Some? ==>
      var image := FirmwareImage.ExtractPayload(env, old(storage.disk).download.value);
      r == if image.Ok? then Ok(()) else Err(BadImage(image.error))
    ensures r.Err? ==> storage.trace == old(storage.trace) && storage.disk == old(storage.disk)
    ensures r.Ok? ==>
      Installed(old(storage.disk), staged, storage.disk, target,
                FirmwareImage.ExtractPayload(env, old(storage.disk).download.value).value)
    ensures r.Ok? ==>
      Recorded(old(storage.trace), old(storage.disk), staged, storage.trace,
               FirmwareImage.ExtractPayload(env, old(storage.disk).download.value).value.1)
    ensures r.Ok? ==>
      OnlySafe(old(storage.disk), old(storage.trace), storage.trace, target,
               FirmwareImage.ExtractPayload(env, old(storage.disk).download.value).value.1)
  {
    ghost var start, before := storage.disk, storage.trace;
    staged := start;
    if storage.disk.download.None? {
      return Err(DownloadMissing), start;
    }
    var image := FirmwareImage.ExtractPayload(env, storage.disk.download.value);
    match image
    case Err(e) =>
      return Err(BadImage(e)), start;
    case Ok((metadata, payload)) =>
      r := InstallPayload(storage, slots, versions, env, metadata.flashAddress, metadata.payloadSha256, payload,
                          target);
      staged := storage.disk;
      ghost var w := storage.trace;
      RebootsAreSafe(start, staged, before, storage.trace, target, payload);
      var reboot := new RebootManager(state, versions, slots);
      reboot.Reboot();
      assert storage.trace[..|w|] == w;
  }

  /** Up to the reboot, the slot's journal has exactly one entry for each phase of the installation, in their order. */
  ghost predicate Recorded(before: Writes, start: Disk, staged: Disk, trace: Writes, payload: Bytes) {
    var slot, n := InactiveSlot(start), |trace| - |RebootWrites(staged)|;
    && 0 <= n && Logged(slot, before, start, trace[..n], staged,
                        Filling(start.Files(slot), payload) + [Some(Verified), Some(PendingActivation)])
  }

  /** The slot holds the image file, and its flash the payload and erased bytes, in a partition laid out for them. */
  predicate Filled(start: Disk, d: Disk, address: nat, payload: Bytes) {
    var f, size := d.Files(InactiveSlot(start)), PartitionSize(|payload|);
    && f.image == start.download && d.download == None
    && |payload| <= size && f.flash == Flashed(payload, |payload|, size)
    && f.layout == Some(Layout(address, size, if |payload| > 1_000_000 then 65536 else 256, 4096))
  }

  /** `staged` is a completed staging of an extracted image, and `end` is what it reboots to. */
  ghost predicate Installed(start: Disk, staged: Disk, end: Disk, target: Version,
                            image: (FirmwareImage.Metadata, Bytes)) {
    && Staged(start, staged, target, image.1) && end == Rebooted(staged)
    && Filled(start, staged, image.0.flashAddress, image.1)
  }
}
